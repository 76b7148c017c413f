/** The linked queues of the thread pool, read as the sequences of the protocol. */
module ThreadPoolView {
  import opened Wrappers
  import opened SeqFacts
  import opened Queue
  import opened ThreadPool
  import opened ThreadPoolRequests

  /** The fields of a request other than its queue node. */
  datatype Info = Info(loop: LoopId, work: WorkFn)

  /** The queues: `wq`, the slow queue, and for each loop its queue of finished work and the local queue of a running
      `uv__work_done`. */
  const WORK_QUEUE: nat := 0
  const SLOW_QUEUE: nat := 1
  function LoopQueue(l: LoopId): nat { 2 + 2 * l }
  function DrainQueue(l: LoopId): nat { 3 + 2 * l }

  /** Which request a node belongs to. */
  type Owners = map<Node, ReqId>

  ghost function IdOf(owner: Owners, x: Node): ReqId { if x in owner then owner[x] else 0 }

  ghost function ItemOf(marker: Node, owner: Owners, x: Node): Item {
    if x == marker then RunSlow else Work(IdOf(owner, x))
  }

  ghost function Ids(owner: Owners, s: seq<Node>): (ids: seq<ReqId>)
    ensures |ids| == |s|
  {
    seq(|s|, i requires 0 <= i < |s| => IdOf(owner, s[i]))
  }

  ghost function Items(marker: Node, owner: Owners, s: seq<Node>): (q: seq<Item>)
    ensures |q| == |s|
  {
    seq(|s|, i requires 0 <= i < |s| => ItemOf(marker, owner, s[i]))
  }

  ghost function FlagOf(flags: map<Node, bool>, node: map<ReqId, Node>, id: ReqId): bool {
    id in node && node[id] in flags && flags[node[id]]
  }

  ghost function LoopAt(items: seq<seq<Node>>, owner: Owners, cancelling: seq<Option<ReqId>>, l: LoopId): Loop
    requires l < |cancelling| && |items| == 2 + 2 * |cancelling|
  {
    Loop(Ids(owner, items[LoopQueue(l)]), Ids(owner, items[DrainQueue(l)]), cancelling[l])
  }

  /** The node is that of a request. */
  predicate Known(owner: Owners, node: map<ReqId, Node>, x: Node) {
    x in owner && owner[x] in node && node[owner[x]] == x
  }

  /** Requests and their nodes belong together one to one, and the marker is nobody's. */
  ghost predicate Matched(marker: Node, owner: Owners, node: map<ReqId, Node>) {
    && marker !in owner
    && forall id :: id in node ==> node[id] in owner && owner[node[id]] == id
  }

  /** Only requests are queued, and in `wq` also the marker. */
  ghost predicate Queued(marker: Node, owner: Owners, node: map<ReqId, Node>, items: seq<seq<Node>>) {
    forall k, i :: 0 <= k < |items| && 0 <= i < |items[k]| ==>
      (k == WORK_QUEUE && items[k][i] == marker) || Known(owner, node, items[k][i])
  }

  // ---- Lists ----

  lemma {:induction false} ItemsSnoc(marker: Node, owner: Owners, s: seq<Node>, x: Node)
    ensures Items(marker, owner, s + [x]) == Items(marker, owner, s) + [ItemOf(marker, owner, x)]
    ensures Ids(owner, s + [x]) == Ids(owner, s) + [IdOf(owner, x)]
  {
  }

  lemma {:induction false} ItemsWithoutAt(marker: Node, owner: Owners, s: seq<Node>, i: nat)
    requires i < |s|
    ensures var q := Items(marker, owner, s); Items(marker, owner, s[..i] + s[i + 1..]) == q[..i] + q[i + 1..]
    ensures var ids := Ids(owner, s); Ids(owner, s[..i] + s[i + 1..]) == ids[..i] + ids[i + 1..]
  {
  }

  /** Taking the only occurrence of an element out. */
  lemma {:induction false} WithoutAt<T(!new)>(s: seq<T>, i: nat)
    requires NoDup(s) && i < |s|
    ensures Without(s, s[i]) == s[..i] + s[i + 1..]
    decreases |s|
  {
    if i == 0 {
      NoDupTail(s);
      NothingAround(s[1..]);
    } else {
      NoDupTail(s);
      WithoutAt(s[1..], i - 1);
      CutRest(s, i);
    }
  }

  lemma {:induction false} CutRest<T>(s: seq<T>, i: nat)
    requires 0 < i < |s|
    ensures s[1..][i - 1] == s[i] && [s[0]] + (s[1..][..i - 1] + s[1..][i..]) == s[..i] + s[i + 1..]
  {
  }

  // ---- The whole pool ----

  /** What the queues hold, and which nodes are linked to themselves. */
  datatype Links = Links(items: seq<seq<Node>>, flags: map<Node, bool>)

  /** Everything but the queues. */
  datatype Book = Book(
    marker: Node, owner: Owners, node: map<ReqId, Node>, info: map<ReqId, Info>, idleThreads: int, slowRunning: int,
    workers: seq<Phase>, cancelling: seq<Option<ReqId>>, done: seq<(ReqId, Status)>,
    ran: set<ReqId>, cancelReturnedZero: set<ReqId>)

  ghost predicate Sound(ln: Links, b: Book) {
    && |ln.items| == 2 + 2 * |b.cancelling| && Matched(b.marker, b.owner, b.node) && b.node.Keys == b.info.Keys
    && b.marker in ln.flags && (forall x :: x in b.owner ==> x in ln.flags)
    && Queued(b.marker, b.owner, b.node, ln.items)
  }

  ghost predicate RequestAt(ln: Links, b: Book, s: State, id: ReqId) {
    id in b.info && id in s.reqs ==>
      s.reqs[id] == Request(b.info[id].loop, b.info[id].work, FlagOf(ln.flags, b.node, id))
  }

  ghost predicate LoopRead(ln: Links, b: Book, s: State, l: LoopId)
    requires |ln.items| == 2 + 2 * |b.cancelling| && |s.loops| == |b.cancelling|
  {
    l < |b.cancelling| ==> s.loops[l] == LoopAt(ln.items, b.owner, b.cancelling, l)
  }

  /** s is the state of the protocol that the pool is in. Quantified only so that the details stay out of sight until
      `Reading` is named. */
  ghost predicate Reads(ln: Links, b: Book, s: State) {
    && |ln.items| == 2 + 2 * |b.cancelling| && |s.loops| == |b.cancelling| && s.workers == b.workers
    && s.idleThreads == b.idleThreads && s.slowRunning == b.slowRunning && s.ran == b.ran
    && s.done == b.done && s.cancelReturnedZero == b.cancelReturnedZero
    && b.node.Keys == b.info.Keys == s.reqs.Keys && b.marker in ln.flags
    && forall z: int :: Reading(ln, b, s, z)
  }

  lemma {:induction false} Expose(ln: Links, b: Book, s: State)
    requires Reads(ln, b, s)
    ensures Reading(ln, b, s, 0)
  {
  }

  lemma {:induction false} Conceal(ln: Links, b: Book, s: State)
    requires Reading(ln, b, s, 0)
    ensures Reads(ln, b, s)
  {
    forall z: int ensures Reading(ln, b, s, z) { assert Reading(ln, b, s, 0); }
  }

  ghost predicate Reading(ln: Links, b: Book, s: State, z: int) {
    && Sound(ln, b)
    && s.wq == Items(b.marker, b.owner, ln.items[WORK_QUEUE]) && s.slowPending == Ids(b.owner, ln.items[SLOW_QUEUE])
    && s.markerSelfLinked == ln.flags[b.marker] && s.idleThreads == b.idleThreads && s.slowRunning == b.slowRunning
    && s.workers == b.workers && s.done == b.done && s.ran == b.ran && s.cancelReturnedZero == b.cancelReturnedZero
    && s.reqs.Keys == b.info.Keys && (forall id :: RequestAt(ln, b, s, id))
    && |s.loops| == |b.cancelling| && (forall l :: LoopRead(ln, b, s, l))
  }

  // ---- One change at a time ----

  ghost function Cut(s: seq<Node>, i: nat): seq<Node>
    requires i < |s|
  {
    s[..i] + s[i + 1..]
  }

  lemma {:induction false} CutQueued(b: Book, items: seq<seq<Node>>, k: nat, i: nat)
    requires Queued(b.marker, b.owner, b.node, items) && k < |items| && i < |items[k]|
    ensures Queued(b.marker, b.owner, b.node, items[k := Cut(items[k], i)])
  {
    forall j | 0 <= j < |items[k]| - 1
      ensures Cut(items[k], i)[j] == items[k][if j < i then j else j + 1] {}
  }

  lemma {:induction false} SnocQueued(b: Book, items: seq<seq<Node>>, k: nat, x: Node)
    requires Queued(b.marker, b.owner, b.node, items) && k < |items|
    requires (k == WORK_QUEUE && x == b.marker) || Known(b.owner, b.node, x)
    ensures Queued(b.marker, b.owner, b.node, items[k := items[k] + [x]])
  {
  }

  lemma {:induction false} FirstOut<T>(ids: seq<T>)
    requires ids != []
    ensures ids[..0] + ids[1..] == ids[1..]
  {
  }

  /** A request's node becomes linked to itself or not. */
  lemma {:induction false} FlagSet(ln: Links, ln': Links, b: Book, s: State, t: State, id: ReqId, flag: bool)
    requires Matched(b.marker, b.owner, b.node) && b.node.Keys == b.info.Keys && s.reqs.Keys == b.info.Keys
    requires (forall x :: RequestAt(ln, b, s, x)) && id in b.node && ln'.flags == ln.flags[b.node[id] := flag]
    requires t.reqs == s.reqs[id := s.reqs[id].(selfLinked := flag)]
    ensures forall x :: RequestAt(ln', b, t, x)
  {
    forall x ensures RequestAt(ln', b, t, x) {
      assert RequestAt(ln, b, s, x);
      if x in b.node && x != id { assert b.owner[b.node[x]] == x && b.owner[b.node[id]] == id; }
    }
  }

  /** The marker's links say nothing of a request. */
  lemma {:induction false} MarkerFlagSet(ln: Links, ln': Links, b: Book, s: State, t: State, flag: bool)
    requires Matched(b.marker, b.owner, b.node) && t.reqs == s.reqs && (forall x :: RequestAt(ln, b, s, x))
    requires ln'.flags == ln.flags[b.marker := flag]
    ensures forall x :: RequestAt(ln', b, t, x)
  {
    forall x ensures RequestAt(ln', b, t, x) { assert RequestAt(ln, b, s, x); }
  }

  /** A queue that is not a loop's. */
  lemma {:induction false} LoopsStay(ln: Links, ln': Links, b: Book, s: State, t: State, k: nat, q: seq<Node>)
    requires |ln.items| == 2 + 2 * |b.cancelling| && |s.loops| == |b.cancelling| && k < 2 && t.loops == s.loops
    requires ln'.items == ln.items[k := q] && forall l :: LoopRead(ln, b, s, l)
    ensures forall l :: LoopRead(ln', b, t, l)
  {
    forall l ensures LoopRead(ln', b, t, l) { assert LoopRead(ln, b, s, l); }
  }

  /** A queue of loop l. */
  lemma {:induction false} LoopSet(ln: Links, ln': Links, b: Book, s: State, t: State, l: LoopId)
    requires |ln.items| == 2 + 2 * |b.cancelling| == |ln'.items| && |s.loops| == |b.cancelling| && l < |b.cancelling|
    requires forall k :: 0 <= k < |ln.items| && k != LoopQueue(l) && k != DrainQueue(l) ==> ln'.items[k] == ln.items[k]
    requires (forall m :: LoopRead(ln, b, s, m)) && t.loops == s.loops[l := LoopAt(ln'.items, b.owner, b.cancelling, l)]
    ensures forall m :: LoopRead(ln', b, t, m)
  {
    forall m ensures LoopRead(ln', b, t, m) { assert LoopRead(ln, b, s, m); }
  }

  /** The counters, the workers and the history are read as they are. */
  lemma {:induction false} Plain(ln: Links, b: Book, c: Book, s: State)
    requires Reads(ln, b, s) && c.marker == b.marker && c.owner == b.owner && c.node == b.node && c.info == b.info
    requires c.cancelling == b.cancelling
    ensures Reads(ln, c, s.(idleThreads := c.idleThreads, slowRunning := c.slowRunning, workers := c.workers,
                            done := c.done, ran := c.ran, cancelReturnedZero := c.cancelReturnedZero))
  {
    Expose(ln, b, s);
    var t := s.(idleThreads := c.idleThreads, slowRunning := c.slowRunning, workers := c.workers,
                done := c.done, ran := c.ran, cancelReturnedZero := c.cancelReturnedZero);
    forall x ensures RequestAt(ln, c, t, x) { assert RequestAt(ln, b, s, x); }
    forall l ensures LoopRead(ln, c, t, l) { assert LoopRead(ln, b, s, l); }
    Conceal(ln, c, t);
  }

  /** The first item of `wq` taken off and linked to itself. */
  lemma {:induction false} WorkPopped(ln: Links, b: Book, s: State)
    requires Reads(ln, b, s) && s.wq != []
    ensures ln.items[WORK_QUEUE] != []
    ensures var q := ln.items[WORK_QUEUE][0];
      var ln' := Links(ln.items[WORK_QUEUE := Cut(ln.items[WORK_QUEUE], 0)], ln.flags[q := true]);
      && (q == b.marker <==> s.wq[0] == RunSlow)
      && (q == b.marker ==> Reads(ln', b, s.(wq := s.wq[1..], markerSelfLinked := true)))
      && (q != b.marker ==> Known(b.owner, b.node, q) && s.wq[0] == Work(b.owner[q])
                            && Reads(ln', b, SelfLink(s.(wq := s.wq[1..]), b.owner[q])))
  {
    Expose(ln, b, s);
    var q, r := ln.items[WORK_QUEUE][0], Cut(ln.items[WORK_QUEUE], 0);
    var ln' := Links(ln.items[WORK_QUEUE := r], ln.flags[q := true]);
    CutQueued(b, ln.items, WORK_QUEUE, 0);
    ItemsWithoutAt(b.marker, b.owner, ln.items[WORK_QUEUE], 0);
    FirstOut(s.wq);
    assert s.wq[0] == ItemOf(b.marker, b.owner, q);
    if q == b.marker {
      var t := s.(wq := s.wq[1..], markerSelfLinked := true);
      LoopsStay(ln, ln', b, s, t, WORK_QUEUE, r);
      MarkerFlagSet(ln, ln', b, s, t, true);
      Conceal(ln', b, t);
    } else {
      assert Known(b.owner, b.node, q);
      var t := SelfLink(s.(wq := s.wq[1..]), b.owner[q]);
      LoopsStay(ln, ln', b, s, t, WORK_QUEUE, r);
      FlagSet(ln, ln', b, s, t, b.owner[q], true);
      Conceal(ln', b, t);
    }
  }

  /** The first slow request taken off and linked to itself. */
  lemma {:induction false} SlowPopped(ln: Links, b: Book, s: State)
    requires Reads(ln, b, s) && s.slowPending != []
    ensures ln.items[SLOW_QUEUE] != []
    ensures var q := ln.items[SLOW_QUEUE][0];
      var ln' := Links(ln.items[SLOW_QUEUE := Cut(ln.items[SLOW_QUEUE], 0)], ln.flags[q := true]);
      && Known(b.owner, b.node, q) && q != b.marker && b.owner[q] == s.slowPending[0]
      && Reads(ln', b, SelfLink(s.(slowPending := s.slowPending[1..]), b.owner[q]))
  {
    Expose(ln, b, s);
    var q, r := ln.items[SLOW_QUEUE][0], Cut(ln.items[SLOW_QUEUE], 0);
    var ln' := Links(ln.items[SLOW_QUEUE := r], ln.flags[q := true]);
    CutQueued(b, ln.items, SLOW_QUEUE, 0);
    ItemsWithoutAt(b.marker, b.owner, ln.items[SLOW_QUEUE], 0);
    FirstOut(s.slowPending);
    assert Known(b.owner, b.node, q) && s.slowPending[0] == IdOf(b.owner, q);
    var t := SelfLink(s.(slowPending := s.slowPending[1..]), b.owner[q]);
    LoopsStay(ln, ln', b, s, t, SLOW_QUEUE, r);
    FlagSet(ln, ln', b, s, t, b.owner[q], true);
    Conceal(ln', b, t);
  }

  /** The marker put at the tail of `wq`. */
  lemma {:induction false} MarkerPosted(ln: Links, b: Book, s: State)
    requires Reads(ln, b, s)
    ensures var ln' := Links(ln.items[WORK_QUEUE := ln.items[WORK_QUEUE] + [b.marker]], ln.flags[b.marker := false]);
      Reads(ln', b, s.(wq := s.wq + [RunSlow], markerSelfLinked := false))
  {
    Expose(ln, b, s);
    var r := ln.items[WORK_QUEUE] + [b.marker];
    var ln' := Links(ln.items[WORK_QUEUE := r], ln.flags[b.marker := false]);
    var t := s.(wq := s.wq + [RunSlow], markerSelfLinked := false);
    SnocQueued(b, ln.items, WORK_QUEUE, b.marker);
    ItemsSnoc(b.marker, b.owner, ln.items[WORK_QUEUE], b.marker);
    LoopsStay(ln, ln', b, s, t, WORK_QUEUE, r);
    MarkerFlagSet(ln, ln', b, s, t, false);
    Conceal(ln', b, t);
  }

  /** A request put at the tail of `wq` or of the slow queue. */
  lemma {:induction false} WorkPosted(ln: Links, b: Book, s: State, id: ReqId, k: nat)
    requires Reads(ln, b, s) && id in b.node && k < 2
    ensures id in s.reqs
    ensures var ln' := Links(ln.items[k := ln.items[k] + [b.node[id]]], ln.flags[b.node[id] := false]);
      var t := s.(reqs := s.reqs[id := s.reqs[id].(selfLinked := false)]);
      Reads(ln', b, if k == WORK_QUEUE then t.(wq := t.wq + [Work(id)]) else t.(slowPending := t.slowPending + [id]))
  {
    Expose(ln, b, s);
    var q := b.node[id];
    var ln' := Links(ln.items[k := ln.items[k] + [q]], ln.flags[q := false]);
    var u := s.(reqs := s.reqs[id := s.reqs[id].(selfLinked := false)]);
    var t := if k == WORK_QUEUE then u.(wq := u.wq + [Work(id)]) else u.(slowPending := u.slowPending + [id]);
    SnocQueued(b, ln.items, k, q);
    ItemsSnoc(b.marker, b.owner, ln.items[k], q);
    LoopsStay(ln, ln', b, s, t, k, ln.items[k] + [q]);
    FlagSet(ln, ln', b, s, t, id, false);
    Conceal(ln', b, t);
  }

  /** A request put at the tail of a loop's queue. */
  lemma {:induction false} LoopPosted(ln: Links, b: Book, s: State, l: LoopId, id: ReqId)
    requires Reads(ln, b, s) && id in b.node && l < |b.cancelling|
    ensures id in s.reqs
    ensures var k := LoopQueue(l);
      var ln' := Links(ln.items[k := ln.items[k] + [b.node[id]]], ln.flags[b.node[id] := false]);
      Reads(ln', b, s.(loops := s.loops[l := s.loops[l].(wq := s.loops[l].wq + [id])],
                       reqs := s.reqs[id := s.reqs[id].(selfLinked := false)]))
  {
    Expose(ln, b, s);
    var k, q := LoopQueue(l), b.node[id];
    var ln' := Links(ln.items[k := ln.items[k] + [q]], ln.flags[q := false]);
    var t := s.(loops := s.loops[l := s.loops[l].(wq := s.loops[l].wq + [id])],
                reqs := s.reqs[id := s.reqs[id].(selfLinked := false)]);
    SnocQueued(b, ln.items, k, q);
    ItemsSnoc(b.marker, b.owner, ln.items[k], q);
    assert LoopRead(ln, b, s, l);
    LoopSet(ln, ln', b, s, t, l);
    FlagSet(ln, ln', b, s, t, id, false);
    Conceal(ln', b, t);
  }

  /** A new request changes the reading of no queue. */
  lemma {:induction false} NewOwner(b: Book, items: seq<seq<Node>>, x: Node, id: ReqId)
    requires Queued(b.marker, b.owner, b.node, items) && x !in b.owner && x != b.marker && id !in b.node
    ensures Queued(b.marker, b.owner[x := id], b.node[id := x], items)
    ensures forall k :: 0 <= k < |items| ==> Ids(b.owner[x := id], items[k]) == Ids(b.owner, items[k])
    ensures forall k :: 0 <= k < |items| ==> Items(b.marker, b.owner[x := id], items[k]) == Items(b.marker, b.owner, items[k])
  {
    forall k, i | 0 <= k < |items| && 0 <= i < |items[k]|
      ensures (k == WORK_QUEUE && items[k][i] == b.marker) || Known(b.owner[x := id], b.node[id := x], items[k][i])
      ensures IdOf(b.owner[x := id], items[k][i]) == IdOf(b.owner, items[k][i])
    {
      assert (k == WORK_QUEUE && items[k][i] == b.marker) || Known(b.owner, b.node, items[k][i]);
    }
    forall k | 0 <= k < |items| ensures Ids(b.owner[x := id], items[k]) == Ids(b.owner, items[k]) {}
  }

  /** A new request, whose node is in no queue yet. */
  lemma {:induction false} Registered(ln: Links, b: Book, s: State, id: ReqId, q: Node, l: LoopId)
    requires Reads(ln, b, s) && id !in b.info && q !in ln.flags
    ensures Reads(ln.(flags := ln.flags[q := true]),
                  b.(owner := b.owner[q := id], node := b.node[id := q], info := b.info[id := Info(l, Callback)]),
                  s.(reqs := s.reqs[id := Request(l, Callback, true)]))
  {
    Expose(ln, b, s);
    var ln' := ln.(flags := ln.flags[q := true]);
    var c := b.(owner := b.owner[q := id], node := b.node[id := q], info := b.info[id := Info(l, Callback)]);
    var t := s.(reqs := s.reqs[id := Request(l, Callback, true)]);
    NewOwner(b, ln.items, q, id);
    forall x ensures RequestAt(ln', c, t, x) { assert RequestAt(ln, b, s, x); }
    forall m ensures LoopRead(ln', c, t, m) { assert LoopRead(ln, b, s, m); }
    Conceal(ln', c, t);
  }

  /** All of a loop's queue moved to its local queue. */
  lemma {:induction false} Drained(ln: Links, b: Book, s: State, l: LoopId)
    requires Reads(ln, b, s) && l < |b.cancelling| && ln.items[DrainQueue(l)] == []
    ensures Reads(ln.(items := ln.items[LoopQueue(l) := []][DrainQueue(l) := ln.items[LoopQueue(l)]]), b,
                  s.(loops := s.loops[l := s.loops[l].(wq := [], drain := s.loops[l].wq)]))
  {
    Expose(ln, b, s);
    var ln' := ln.(items := ln.items[LoopQueue(l) := []][DrainQueue(l) := ln.items[LoopQueue(l)]]);
    var t := s.(loops := s.loops[l := s.loops[l].(wq := [], drain := s.loops[l].wq)]);
    assert Ids(b.owner, []) == [] && LoopRead(ln, b, s, l);
    LoopSet(ln, ln', b, s, t, l);
    forall x ensures RequestAt(ln', b, t, x) { assert RequestAt(ln, b, s, x); }
    Conceal(ln', b, t);
  }

  /** The first request of the local queue taken off. */
  lemma {:induction false} DrainPopped(ln: Links, b: Book, s: State, l: LoopId)
    requires Reads(ln, b, s) && l < |b.cancelling| && s.loops[l].drain != []
    ensures ln.items[DrainQueue(l)] != []
    ensures var k := DrainQueue(l);
      && Known(b.owner, b.node, ln.items[k][0]) && b.owner[ln.items[k][0]] == s.loops[l].drain[0]
      && Reads(ln.(items := ln.items[k := Cut(ln.items[k], 0)]), b,
               s.(loops := s.loops[l := s.loops[l].(drain := s.loops[l].drain[1..])]))
  {
    Expose(ln, b, s);
    var k := DrainQueue(l);
    assert LoopRead(ln, b, s, l);
    var ln' := ln.(items := ln.items[k := Cut(ln.items[k], 0)]);
    var t := s.(loops := s.loops[l := s.loops[l].(drain := s.loops[l].drain[1..])]);
    CutQueued(b, ln.items, k, 0);
    ItemsWithoutAt(b.marker, b.owner, ln.items[k], 0);
    FirstOut(s.loops[l].drain);
    assert Known(b.owner, b.node, ln.items[k][0]) && s.loops[l].drain[0] == IdOf(b.owner, ln.items[k][0]);
    LoopSet(ln, ln', b, s, t, l);
    forall x ensures RequestAt(ln', b, t, x) { assert RequestAt(ln, b, s, x); }
    Conceal(ln', b, t);
  }

  /** The fields of one request. */
  lemma {:induction false} InfoSet(ln: Links, b: Book, s: State, id: ReqId, f: Info)
    requires Reads(ln, b, s) && id in b.info
    ensures id in s.reqs
    ensures Reads(ln, b.(info := b.info[id := f]),
                  s.(reqs := s.reqs[id := Request(f.loop, f.work, s.reqs[id].selfLinked)]))
  {
    Expose(ln, b, s);
    var c, t := b.(info := b.info[id := f]), s.(reqs := s.reqs[id := Request(f.loop, f.work, s.reqs[id].selfLinked)]);
    assert RequestAt(ln, b, s, id);
    forall x ensures RequestAt(ln, c, t, x) { assert RequestAt(ln, b, s, x); }
    forall m ensures LoopRead(ln, c, t, m) { assert LoopRead(ln, b, s, m); }
    Conceal(ln, c, t);
  }

  /** What a loop thread is in the middle of cancelling. */
  lemma {:induction false} CancelSet(ln: Links, b: Book, s: State, l: LoopId, c: Option<ReqId>)
    requires Reads(ln, b, s) && l < |b.cancelling|
    ensures Reads(ln, b.(cancelling := b.cancelling[l := c]),
                  s.(loops := s.loops[l := s.loops[l].(cancelling := c)]))
  {
    Expose(ln, b, s);
    var b', t := b.(cancelling := b.cancelling[l := c]), s.(loops := s.loops[l := s.loops[l].(cancelling := c)]);
    forall x ensures RequestAt(ln, b', t, x) { assert RequestAt(ln, b, s, x); }
    forall m ensures LoopRead(ln, b', t, m) { assert LoopRead(ln, b, s, m); }
    Conceal(ln, b', t);
  }

  /** A request, read. */
  lemma {:induction false} RequestRead(ln: Links, b: Book, s: State, id: ReqId)
    requires Reads(ln, b, s) && id in b.node
    ensures b.node[id] in ln.flags && b.node[id] != b.marker
    ensures id in s.reqs && s.reqs[id] == Request(b.info[id].loop, b.info[id].work, ln.flags[b.node[id]])
  {
    Expose(ln, b, s);
    assert RequestAt(ln, b, s, id);
  }

  lemma {:induction false} SlowRead(ln: Links, b: Book, s: State)
    requires Reads(ln, b, s)
    ensures s.slowPending == [] <==> ln.items[SLOW_QUEUE] == []
  {
    Expose(ln, b, s);
  }

  lemma {:induction false} DrainRead(ln: Links, b: Book, s: State, l: LoopId)
    requires Reads(ln, b, s) && l < |b.cancelling|
    ensures s.loops[l].drain == [] <==> ln.items[DrainQueue(l)] == []
    ensures s.loops[l].cancelling == b.cancelling[l]
  {
    Expose(ln, b, s);
    assert LoopRead(ln, b, s, l);
  }

  /** When a worker has to wait, told from the nodes. */
  lemma {:induction false} WaitsWhen(ln: Links, b: Book, s: State)
    requires Reads(ln, b, s)
    ensures MustWait(s) <==>
      || ln.items[WORK_QUEUE] == []
      || (ln.items[WORK_QUEUE][0] == b.marker && |ln.items[WORK_QUEUE]| == 1 && b.slowRunning >= (|b.workers| + 1) / 2)
  {
    Expose(ln, b, s);
    if s.wq != [] { assert s.wq[0] == ItemOf(b.marker, b.owner, ln.items[WORK_QUEUE][0]); }
  }

  // ---- Where a request's node is ----

  /** The queue that a place stands for, if it is one. */
  function QueueOf(place: Place): Option<nat> {
    match place
    case InWq => Some(WORK_QUEUE)
    case InSlowQueue => Some(SLOW_QUEUE)
    case InLoopQueue(l) => Some(LoopQueue(l))
    case BeingDrained(l) => Some(DrainQueue(l))
    case _ => None
  }

  function PlaceOf(k: nat): Place {
    if k == WORK_QUEUE then InWq else if k == SLOW_QUEUE then InSlowQueue
    else if k % 2 == 0 then InLoopQueue((k - 2) / 2) else BeingDrained((k - 3) / 2)
  }

  lemma {:induction false} PlaceOfQueue(k: nat)
    ensures QueueOf(PlaceOf(k)) == Some(k)
    ensures k >= 2 ==> PlaceOf(k).l == (k - 2) / 2
  {
  }

  /** A node in a queue is at the place of its queue. */
  lemma {:induction false} QueuedAt(ln: Links, b: Book, s: State, id: ReqId, k: nat, i: nat)
    requires Reads(ln, b, s) && id in b.node && k < |ln.items| && i < |ln.items[k]| && ln.items[k][i] == b.node[id]
    ensures At(s, id, PlaceOf(k))
  {
    Expose(ln, b, s);
    PlaceOfQueue(k);
    if k == WORK_QUEUE {
      assert s.wq[i] == ItemOf(b.marker, b.owner, ln.items[k][i]);
    } else if k == SLOW_QUEUE {
      assert s.slowPending[i] == IdOf(b.owner, ln.items[k][i]);
    } else {
      var l := (k - 2) / 2;
      assert LoopRead(ln, b, s, l);
      assert if k % 2 == 0 then s.loops[l].wq[i] == id else s.loops[l].drain[i] == id;
    }
  }

  /** A request that is in no queue has its node in none. */
  lemma {:induction false} NotQueued(ln: Links, b: Book, s: State, loc: map<ReqId, Place>, id: ReqId)
    requires Reads(ln, b, s) && Located(s, loc) && id in b.node && id in loc && QueueOf(loc[id]).None?
    ensures forall k, i :: 0 <= k < |ln.items| && 0 <= i < |ln.items[k]| ==> ln.items[k][i] != b.node[id]
  {
    Expose(ln, b, s);
    forall k, i | 0 <= k < |ln.items| && 0 <= i < |ln.items[k]| ensures ln.items[k][i] != b.node[id] {
      PlaceOfQueue(k);
      if ln.items[k][i] == b.node[id] { QueuedAt(ln, b, s, id, k, i); }
    }
  }

  /** The position of a queued request's node. */
  lemma {:induction false} NodeAt(ln: Links, b: Book, s: State, id: ReqId, place: Place) returns (k: nat, i: nat)
    requires Reads(ln, b, s) && id in b.node && At(s, id, place) && QueueOf(place).Some?
    ensures QueueOf(place) == Some(k) && k < |ln.items| && i < |ln.items[k]| && ln.items[k][i] == b.node[id]
  {
    Expose(ln, b, s);
    k := QueueOf(place).value;
    if k == WORK_QUEUE {
      i :| 0 <= i < |s.wq| && s.wq[i] == Work(id);
      assert ItemOf(b.marker, b.owner, ln.items[k][i]) == Work(id);
    } else {
      if k != SLOW_QUEUE { assert LoopRead(ln, b, s, place.l); }
      var ids := Ids(b.owner, ln.items[k]);
      i :| 0 <= i < |ids| && ids[i] == id;
      assert IdOf(b.owner, ln.items[k][i]) == id;
    }
    assert Known(b.owner, b.node, ln.items[k][i]);
  }

  /** A request that can be cancelled is in a queue, and in which. */
  lemma {:induction false} CancellableIsQueued(s: State, loc: map<ReqId, Place>, l: LoopId, id: ReqId)
    requires Conserved(s, loc) && Enabled(s, CancelBegin(l, id)) && Cancellable(s, id)
    ensures id in loc && QueueOf(loc[id]).Some?
    ensures loc[id].InLoopQueue? || loc[id].BeingDrained? ==> loc[id].l == l
  {
    assert At(s, id, loc[id]) && Consistent(s, id, loc[id]);
  }

  /** A request is in one queue only. */
  lemma {:induction false} Elsewhere(s: State, loc: map<ReqId, Place>, l: LoopId, id: ReqId)
    requires Located(s, loc) && id in loc && l < |s.loops|
    ensures loc[id] != InWq ==> Work(id) !in s.wq
    ensures loc[id] != InSlowQueue ==> id !in s.slowPending
    ensures loc[id] != InLoopQueue(l) ==> id !in s.loops[l].wq
    ensures loc[id] != BeingDrained(l) ==> id !in s.loops[l].drain
  {
    assert At(s, id, InWq) ==> loc[id] == InWq;
    assert At(s, id, InSlowQueue) ==> loc[id] == InSlowQueue;
    assert At(s, id, InLoopQueue(l)) ==> loc[id] == InLoopQueue(l);
    assert At(s, id, BeingDrained(l)) ==> loc[id] == BeingDrained(l);
  }

  /** Unlinking a request that waits in `wq` or in the slow queue. */
  lemma {:induction false} UnlinkWork(s: State, loc: map<ReqId, Place>, l: LoopId, id: ReqId, i: nat)
    requires Conserved(s, loc) && id in loc && l < |s.loops|
    ensures loc[id] == InWq && i < |s.wq| && s.wq[i] == Work(id) ==>
      Unlink(s, l, id) == s.(wq := s.wq[..i] + s.wq[i + 1..])
    ensures loc[id] == InSlowQueue && i < |s.slowPending| && s.slowPending[i] == id ==>
      Unlink(s, l, id) == s.(slowPending := s.slowPending[..i] + s.slowPending[i + 1..])
  {
    Elsewhere(s, loc, l, id);
    if i < |s.wq| { WithoutAt(s.wq, i); }
    if i < |s.slowPending| { WithoutAt(s.slowPending, i); }
    assert s.loops[l := s.loops[l]] == s.loops;
  }

  /** Unlinking a request that is in a queue of its loop. */
  lemma {:induction false} UnlinkFinished(s: State, loc: map<ReqId, Place>, l: LoopId, id: ReqId, i: nat)
    requires Conserved(s, loc) && id in loc && l < |s.loops|
    ensures var lp := s.loops[l];
      loc[id] == InLoopQueue(l) && i < |lp.wq| && lp.wq[i] == id ==>
      Unlink(s, l, id) == s.(loops := s.loops[l := lp.(wq := lp.wq[..i] + lp.wq[i + 1..])])
    ensures var lp := s.loops[l];
      loc[id] == BeingDrained(l) && i < |lp.drain| && lp.drain[i] == id ==>
      Unlink(s, l, id) == s.(loops := s.loops[l := lp.(drain := lp.drain[..i] + lp.drain[i + 1..])])
  {
    Elsewhere(s, loc, l, id);
    if i < |s.loops[l].wq| { WithoutAt(s.loops[l].wq, i); }
    if i < |s.loops[l].drain| { WithoutAt(s.loops[l].drain, i); }
  }

  lemma {:induction false} WorkUnlinked(
    ln: Links, b: Book, s: State, loc: map<ReqId, Place>, l: LoopId, id: ReqId, k: nat, i: nat)
    requires Reads(ln, b, s) && Conserved(s, loc) && id in b.node && l < |b.cancelling| && k < 2
    requires id in loc && QueueOf(loc[id]) == Some(k) && i < |ln.items[k]| && ln.items[k][i] == b.node[id]
    ensures Reads(ln.(items := ln.items[k := Cut(ln.items[k], i)]), b, Unlink(s, l, id))
  {
    Expose(ln, b, s);
    var ln', t := ln.(items := ln.items[k := Cut(ln.items[k], i)]), Unlink(s, l, id);
    UnlinkWork(s, loc, l, id, i);
    CutQueued(b, ln.items, k, i);
    ItemsWithoutAt(b.marker, b.owner, ln.items[k], i);
    assert if k == WORK_QUEUE then s.wq[i] == ItemOf(b.marker, b.owner, b.node[id])
           else s.slowPending[i] == IdOf(b.owner, b.node[id]);
    LoopsStay(ln, ln', b, s, t, k, Cut(ln.items[k], i));
    forall x ensures RequestAt(ln', b, t, x) { assert RequestAt(ln, b, s, x); }
    Conceal(ln', b, t);
  }

  lemma {:induction false} LoopUnlinked(
    ln: Links, b: Book, s: State, loc: map<ReqId, Place>, l: LoopId, id: ReqId, k: nat, i: nat)
    requires Reads(ln, b, s) && Conserved(s, loc) && id in b.node && l < |b.cancelling|
    requires id in loc && (loc[id] == InLoopQueue(l) || loc[id] == BeingDrained(l)) && QueueOf(loc[id]) == Some(k)
    requires i < |ln.items[k]| && ln.items[k][i] == b.node[id]
    ensures Reads(ln.(items := ln.items[k := Cut(ln.items[k], i)]), b, Unlink(s, l, id))
  {
    Expose(ln, b, s);
    var ln', t := ln.(items := ln.items[k := Cut(ln.items[k], i)]), Unlink(s, l, id);
    LoopCut(ln, ln', b, s, loc, l, id, k, i);
    CutQueued(b, ln.items, k, i);
    LoopSet(ln, ln', b, s, t, l);
    forall x ensures RequestAt(ln', b, t, x) { assert RequestAt(ln, b, s, x); }
    Conceal(ln', b, t);
  }

  lemma {:induction false} LoopCut(
    ln: Links, ln': Links, b: Book, s: State, loc: map<ReqId, Place>, l: LoopId, id: ReqId, k: nat, i: nat)
    requires Reading(ln, b, s, 0) && Conserved(s, loc) && id in b.node && l < |b.cancelling|
    requires id in loc && (loc[id] == InLoopQueue(l) || loc[id] == BeingDrained(l)) && QueueOf(loc[id]) == Some(k)
    requires i < |ln.items[k]| && ln.items[k][i] == b.node[id]
    requires ln' == ln.(items := ln.items[k := Cut(ln.items[k], i)])
    ensures Unlink(s, l, id) == s.(loops := s.loops[l := LoopAt(ln'.items, b.owner, b.cancelling, l)])
  {
    assert LoopRead(ln, b, s, l);
    assert Ids(b.owner, ln.items[k])[i] == IdOf(b.owner, b.node[id]);
    UnlinkFinished(s, loc, l, id, i);
    ItemsWithoutAt(b.marker, b.owner, ln.items[k], i);
  }

  /** Unlinking the one node of a request is unlinking it wherever it may be. */
  lemma {:induction false} Unlinked(
    ln: Links, b: Book, s: State, loc: map<ReqId, Place>, l: LoopId, id: ReqId, k: nat, i: nat)
    requires Reads(ln, b, s) && Conserved(s, loc) && id in b.node && l < |b.cancelling|
    requires id in loc && QueueOf(loc[id]) == Some(k) && (loc[id].InLoopQueue? || loc[id].BeingDrained? ==> loc[id].l == l)
    requires k < |ln.items| && i < |ln.items[k]| && ln.items[k][i] == b.node[id]
    ensures Reads(ln.(items := ln.items[k := Cut(ln.items[k], i)]), b, Unlink(s, l, id))
  {
    Expose(ln, b, s);
    if k < 2 { WorkUnlinked(ln, b, s, loc, l, id, k, i); } else { LoopUnlinked(ln, b, s, loc, l, id, k, i); }
  }

  /** Where the node of a request that can be cancelled is linked, and what unlinking it there does. */
  lemma {:induction false} Cancels(ln: Links, b: Book, s: State, l: LoopId, id: ReqId) returns (k: nat, i: nat)
    requires Reads(ln, b, s) && Kept(s) && Enabled(s, CancelBegin(l, id)) && Cancellable(s, id)
    ensures id in b.node && l < |s.loops| && k < |ln.items| && i < |ln.items[k]| && ln.items[k][i] == b.node[id]
    ensures Reads(ln.(items := ln.items[k := Cut(ln.items[k], i)]), b, Unlink(s, l, id))
  {
    var loc := KeptMeans(s);
    CancellableIsQueued(s, loc, l, id);
    assert At(s, id, loc[id]);
    k, i := NodeAt(ln, b, s, id, loc[id]);
    Unlinked(ln, b, s, loc, l, id, k, i);
  }

  /** A request that is being cancelled has its node in no queue. */
  lemma {:induction false} CancellingNotQueued(ln: Links, b: Book, s: State, l: LoopId, id: ReqId)
    requires Reads(ln, b, s) && Kept(s) && id in b.node && At(s, id, BeingCancelled(l))
    ensures forall k, i :: 0 <= k < |ln.items| && 0 <= i < |ln.items[k]| ==> ln.items[k][i] != b.node[id]
  {
    var loc := KeptMeans(s);
    NotQueued(ln, b, s, loc, id);
  }

  /** A request that a worker holds is linked to itself. */
  lemma {:induction false} HeldIsSelfLinked(s: State, w: nat)
    requires Kept(s) && Enabled(s, Publish(w))
    ensures s.reqs[s.workers[w].id].selfLinked
  {
    var loc := KeptMeans(s);
    var id := s.workers[w].id;
    assert At(s, id, OnWorker(w)) && Consistent(s, id, loc[id]);
  }
}
