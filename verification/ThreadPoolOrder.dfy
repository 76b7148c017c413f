/** In which order the thread pool takes its requests, and which ones a cancel still catches, told without the functions
    that the protocol is made of. */
module ThreadPoolOrder {
  import opened Wrappers
  import opened SeqFacts
  import opened ThreadPool
  import opened ThreadPoolRequests
  import opened ThreadPoolDrain

  // ---- Cancelling ----

  /** A cancel takes hold of exactly the requests whose work has not begun, and otherwise changes nothing. */
  lemma {:induction false} CancelDecided(s: State, l: LoopId, id: ReqId)
    requires Kept(s) && Enabled(s, CancelBegin(l, id))
    ensures var t := Step(s, CancelBegin(l, id));
      && (At(t, id, BeingCancelled(l)) <==> id !in s.ran)
      && (id in s.ran ==> t == s)
    ensures id !in s.ran <==>
      || At(s, id, InWq) || At(s, id, InSlowQueue)
      || (id in s.cancelReturnedZero && (At(s, id, InLoopQueue(l)) || At(s, id, BeingDrained(l))))
  {
    var loc := KeptMeans(s);
    assert Consistent(s, id, loc[id]);
    assert At(s, id, loc[id]);
    assert !At(s, id, Over) && !At(s, id, BeingCancelled(l));
  }

  /** In every run, a cancel of a request that is not finished succeeds if and only if its work has not begun: it is
      still waiting in one of the two queues, or has been cancelled before. */
  lemma {:induction false} CancelSucceedsExactly(nthreads: nat, nloops: nat, acts: seq<Action>, l: LoopId, id: ReqId)
    requires Legal(Init(nthreads, nloops), acts)
    requires Enabled(After(Init(nthreads, nloops), acts), CancelBegin(l, id))
    ensures var s := After(Init(nthreads, nloops), acts);
      var t := Step(s, CancelBegin(l, id));
      && (At(t, id, BeingCancelled(l)) <==> id !in s.ran)
      && (id in s.ran ==> t == s)
      && (id !in s.ran <==>
            || At(s, id, InWq) || At(s, id, InSlowQueue)
            || (id in s.cancelReturnedZero && (At(s, id, InLoopQueue(l)) || At(s, id, BeingDrained(l)))))
  {
    InitKept(nthreads, nloops);
    RunKept(Init(nthreads, nloops), acts);
    CancelDecided(After(Init(nthreads, nloops), acts), l, id);
  }

  // ---- First come, first served ----

  /** The requests in `wq`, in order, without the marker. */
  function Fast(q: seq<Item>): seq<ReqId> {
    if q == [] then [] else if q[0].Work? then [q[0].id] + Fast(q[1..]) else Fast(q[1..])
  }

  /** The requests of one sort that are waiting, in order. */
  function Line(s: State, slow: bool): seq<ReqId> { if slow then s.slowPending else Fast(s.wq) }

  lemma {:induction false} FastSnoc(q: seq<Item>, x: Item)
    ensures Fast(q + [x]) == Fast(q) + (if x.Work? then [x.id] else [])
    decreases |q|
  {
    if q == [] {
      assert [x][1..] == [] && q + [x] == [x];
    } else {
      RestSnoc(q, x);
      FastSnoc(q[1..], x);
      if q[0].Work? { Associates([q[0].id], Fast(q[1..]), if x.Work? then [x.id] else []); }
    }
  }

  lemma {:induction false} FastWithout(q: seq<Item>, id: ReqId)
    ensures Fast(Without(q, Work(id))) == Without(Fast(q), id)
    decreases |q|
  {
    if q != [] {
      FastWithout(q[1..], id);
      var rest := Without(q[1..], Work(id));
      if q[0] != Work(id) { assert ([q[0]] + rest)[1..] == rest; }
      if q[0].Work? { assert ([q[0].id] + Fast(q[1..]))[1..] == Fast(q[1..]); }
    }
  }

  lemma {:induction false} FastHas(q: seq<Item>, id: ReqId)
    ensures id in Fast(q) <==> Work(id) in q
    decreases |q|
  {
    if q != [] {
      FastHas(q[1..], id);
      FirstAndRest(q);
    }
  }

  /** A worker took nothing, or the first request of one line. */
  ghost predicate TookFirst(s: State, t: State, w: nat) {
    || (Line(t, false) == Line(s, false) && Line(t, true) == Line(s, true) && t.ran == s.ran)
    || TookFrom(s, t, w, false) || TookFrom(s, t, w, true)
  }

  ghost predicate TookFrom(s: State, t: State, w: nat, slow: bool) {
    && Line(s, slow) != [] && Line(t, slow) == Line(s, slow)[1..] && Line(t, !slow) == Line(s, !slow)
    && t.ran == s.ran + {Line(s, slow)[0]}
    && w < |t.workers| && t.workers[w] == Running(Line(s, slow)[0], slow)
  }

  lemma {:induction false} MarkerIsNotInLine(q: seq<Item>)
    requires q != [] && q[0] == RunSlow
    ensures Fast(q[1..]) == Fast(q) && Fast(q[1..] + [RunSlow]) == Fast(q)
  {
    NothingAround(Fast(q[1..]));
    FastSnoc(q[1..], RunSlow);
  }

  lemma {:induction false} SameLines(s: State, u: State, t: State, w: nat)
    requires Fast(u.wq) == Fast(s.wq) && u.slowPending == s.slowPending && u.ran == s.ran && TookFirst(u, t, w)
    ensures TookFirst(s, t, w)
  {
    assert forall slow :: Line(u, slow) == Line(s, slow);
  }

  lemma {:induction false} TopTakesFirst(s: State, w: nat, wake: nat)
    requires w < |s.workers| && s.workers[w] == Starting && MarkerOnce(s)
    ensures TookFirst(s, WorkerTop(s, w, wake), w)
    decreases if s.wq != [] && s.wq[0] == RunSlow then 1 else 0
  {
    if !MustWait(s) && s.wq[0].Work? {
      WorkTakesFirst(s, w);
    } else if !MustWait(s) {
      MarkerTail(s);
      MarkerIsNotInLine(s.wq);
      var rest := s.wq[1..];
      if s.slowRunning >= Threshold(s) {
        assert rest[0] == s.wq[1];
        var u := s.(wq := rest + [RunSlow], markerSelfLinked := false);
        TopTakesFirst(u, w, wake);
        SameLines(s, u, WorkerTop(s, w, wake), w);
      } else if s.slowPending == [] {
        var u := s.(wq := rest, markerSelfLinked := true);
        TopTakesFirst(u, w, wake);
        SameLines(s, u, WorkerTop(s, w, wake), w);
      } else {
        SlowTakesFirst(s, w, wake);
      }
    }
  }

  lemma {:induction false} WorkTakesFirst(s: State, w: nat)
    requires w < |s.workers| && s.wq != [] && s.wq[0].Work?
    ensures TookFrom(s, TakeWork(s, w), w, false)
  {
  }

  lemma {:induction false} SlowTakesFirst(s: State, w: nat, wake: nat)
    requires w < |s.workers| && s.wq != [] && s.wq[0] == RunSlow && s.slowPending != []
    ensures TookFrom(s, TakeSlow(s, w, wake), w, true)
  {
    MarkerIsNotInLine(s.wq);
  }

  /** How one step changes the two lines: a submitted request goes to the end of its own, a worker takes the first of
      one, a cancel takes out the request it names, and nothing else touches them. */
  lemma {:induction false} LinesMove(s: State, a: Action)
    requires Enabled(s, a)
    ensures var t := Step(s, a);
      match a
      case Submit(l, id, slow, _) =>
        && Line(t, slow) == Line(s, slow) + [id] && Line(t, !slow) == Line(s, !slow) && t.ran == s.ran
        && id in t.reqs && t.reqs[id].loop == l
      case WorkerRun(w, _) => TookFirst(s, t, w)
      case CancelBegin(_, id) =>
        t.ran == s.ran && forall slow :: Line(t, slow) == Line(s, slow) || Line(t, slow) == Without(Line(s, slow), id)
      case _ => t.ran == s.ran && forall slow :: Line(t, slow) == Line(s, slow)
  {
    match a
    case Submit(_, id, slow, _) =>
      FastSnoc(s.wq, RunSlow);
      FastSnoc(s.wq, Work(id));
      NothingAround(Fast(s.wq));
    case WorkerRun(w, wake) => TopTakesFirst(TakeMutex(s, w), w, wake);
    case CancelBegin(_, id) => FastWithout(s.wq, id);
    case _ =>
  }

  /** a is waiting, and b has come after it: b is further back in the line, or has been cancelled. */
  ghost predicate Behind(s: State, slow: bool, a: ReqId, b: ReqId) {
    && a in Line(s, slow) && b !in s.ran && b in s.reqs
    && (b in Line(s, slow) ==> Ahead(Line(s, slow), a, b)) && b !in Line(s, !slow)
  }

  /** a comes before b in a line. */
  ghost predicate Ahead(q: seq<ReqId>, a: ReqId, b: ReqId) {
    exists i, j :: 0 <= i < j < |q| && q[i] == a && q[j] == b
  }

  lemma {:induction false} AheadStays(q: seq<ReqId>, x: ReqId, a: ReqId, b: ReqId)
    requires Ahead(q, a, b)
    ensures Ahead(q + [x], a, b)
    ensures NoDup(q) && q[0] != a ==> Ahead(q[1..], a, b)
    ensures x != a && x != b ==> Ahead(Without(q, x), a, b)
  {
    var i, j :| 0 <= i < j < |q| && q[i] == a && q[j] == b;
    assert (q + [x])[i] == a && (q + [x])[j] == b;
    if q[0] != a { assert q[1..][i - 1] == a && q[1..][j - 1] == b; }
    if x != a && x != b { AheadWithout(q, x, i, j); }
  }

  lemma {:induction false} AheadWithout(q: seq<ReqId>, x: ReqId, i: nat, j: nat)
    requires i < j < |q| && q[i] != x && q[j] != x
    ensures Ahead(Without(q, x), q[i], q[j])
    decreases |q|
  {
    var rest := Without(q[1..], x);
    if i > 0 {
      AheadWithout(q[1..], x, i - 1, j - 1);
      var m, n :| 0 <= m < n < |rest| && rest[m] == q[i] && rest[n] == q[j];
      assert q[0] != x ==> ([q[0]] + rest)[m + 1] == q[i] && ([q[0]] + rest)[n + 1] == q[j];
    } else {
      assert q[1..][j - 1] == q[j];
      assert q[j] in rest;
      var n :| 0 <= n < |rest| && rest[n] == q[j];
      assert ([q[0]] + rest)[0] == q[i] && ([q[0]] + rest)[n + 1] == q[j];
    }
  }

  lemma {:induction false} FastNoDup(q: seq<Item>)
    requires NoDup(q)
    ensures NoDup(Fast(q))
    decreases |q|
  {
    if q != [] {
      NoDupTail(q);
      FastNoDup(q[1..]);
      if q[0].Work? { FastHas(q[1..], q[0].id); }
    }
  }

  /** Waiting requests are submitted and have not run, and are in one line only, once. */
  lemma {:induction false} LinesSound(s: State)
    requires Kept(s)
    ensures forall slow, id :: id in Line(s, slow) ==> id in s.reqs && id !in s.ran && id !in Line(s, !slow)
    ensures forall slow :: NoDup(Line(s, slow))
  {
    var loc := KeptMeans(s);
    FastNoDup(s.wq);
    forall slow, id | id in Line(s, slow) ensures id in s.reqs && id !in s.ran && id !in Line(s, !slow) {
      FastHas(s.wq, id);
      assert At(s, id, if slow then InSlowQueue else InWq);
      assert Consistent(s, id, loc[id]);
      assert id in Line(s, !slow) ==> At(s, id, if slow then InWq else InSlowQueue);
    }
  }

  /** A line that goes from q to r keeps its order. */
  lemma {:induction false} OrderStays(q: seq<ReqId>, r: seq<ReqId>, x: ReqId, a: ReqId, b: ReqId)
    requires NoDup(q) && a in q && a in r && (b in q ==> Ahead(q, a, b))
    requires r == q || (r == q + [x] && x != b) || r == q[1..] || r == Without(q, x)
    ensures (b in r ==> Ahead(r, a, b)) && (r == q[1..] ==> q[0] != b && q[0] != a)
  {
    if r == q[1..] {
      NoDupTail(q);
      if b in q {
        var i, j :| 0 <= i < j < |q| && q[i] == a && q[j] == b;
        assert q[0] != q[j];
      }
    }
    if b in r { AheadStays(q, x, a, b); }
  }

  /** A request stays known, and stays with its loop. */
  ghost predicate SameOwners(s: State, t: State) {
    forall id :: id in s.reqs ==> id in t.reqs && t.reqs[id].loop == s.reqs[id].loop
  }

  lemma {:induction false} TopKeepsOwners(s: State, w: nat, wake: nat)
    requires w < |s.workers| && MarkerOnce(s)
    ensures SameOwners(s, WorkerTop(s, w, wake))
    decreases if s.wq != [] && s.wq[0] == RunSlow then 1 else 0
  {
    if !MustWait(s) && s.wq[0] == RunSlow {
      MarkerTail(s);
      var rest := s.wq[1..];
      if s.slowRunning >= Threshold(s) {
        assert rest[0] == s.wq[1];
        TopKeepsOwners(s.(wq := rest + [RunSlow], markerSelfLinked := false), w, wake);
      } else if s.slowPending == [] {
        TopKeepsOwners(s.(wq := rest, markerSelfLinked := true), w, wake);
      }
    }
  }

  lemma {:induction false} StepKeepsOwners(s: State, a: Action)
    requires Enabled(s, a)
    ensures SameOwners(s, Step(s, a))
  {
    if a.WorkerRun? { TopKeepsOwners(TakeMutex(s, a.w), a.w, a.wake); }
  }

  /** Behind stays behind, until the one in front has left the line. */
  lemma {:induction false} BehindStays(s: State, act: Action, slow: bool, a: ReqId, b: ReqId)
    requires Kept(s) && Enabled(s, act) && Behind(s, slow, a, b) && a in Line(Step(s, act), slow)
    ensures Behind(Step(s, act), slow, a, b)
  {
    LinesSound(s);
    LinesMove(s, act);
    OrderStays(Line(s, slow), Line(Step(s, act), slow), if act.Submit? || act.CancelBegin? then act.id else 0, a, b);
    StepKeepsOwners(s, act);
  }

  /** A request that has left its line does not come back to it. */
  lemma {:induction false} GoneStays(s: State, act: Action, slow: bool, a: ReqId)
    requires Enabled(s, act) && a in s.reqs && a !in Line(s, slow)
    ensures a in Step(s, act).reqs && a !in Line(Step(s, act), slow)
  {
    LinesMove(s, act);
    StepKeepsOwners(s, act);
  }

  /** First come, first served, among fast requests and among slow ones: from any state reached, if b waits behind a then
      b does not begin to run while a is still waiting. */
  lemma {:induction false} FirstComeFirstServed(s: State, acts: seq<Action>, slow: bool, a: ReqId, b: ReqId)
    requires Kept(s) && Legal(s, acts) && a in s.reqs && (a in Line(s, slow) ==> Behind(s, slow, a, b))
    ensures a in Line(After(s, acts), slow) ==> b !in After(s, acts).ran
    decreases |acts|
  {
    if acts != [] {
      StepKept(s, acts[0]);
      if a in Line(s, slow) {
        StepKeepsOwners(s, acts[0]);
        if a in Line(Step(s, acts[0]), slow) { BehindStays(s, acts[0], slow, a, b); }
      } else {
        GoneStays(s, acts[0], slow, a);
      }
      FirstComeFirstServed(Step(s, acts[0]), acts[1..], slow, a, b);
    }
  }

  /** Of two requests of one sort in any run, the one submitted second does not begin to run before the first has begun
      or been cancelled. */
  lemma {:induction false} InSubmitOrder(
    nthreads: nat, nloops: nat, acts: seq<Action>, more: seq<Action>, slow: bool, a: ReqId, b: ReqId, l: LoopId, wake: nat)
    requires Legal(Init(nthreads, nloops), acts)
    requires var s := After(Init(nthreads, nloops), acts);
      a in Line(s, slow) && Enabled(s, Submit(l, b, slow, wake)) && Legal(Step(s, Submit(l, b, slow, wake)), more)
    ensures var t := After(Step(After(Init(nthreads, nloops), acts), Submit(l, b, slow, wake)), more);
      a in Line(t, slow) ==> b !in t.ran
  {
    InitKept(nthreads, nloops);
    RunKept(Init(nthreads, nloops), acts);
    SubmittedBehind(After(Init(nthreads, nloops), acts), slow, a, b, l, wake);
    FirstComeFirstServed(Step(After(Init(nthreads, nloops), acts), Submit(l, b, slow, wake)), more, slow, a, b);
  }

  lemma {:induction false} SubmittedBehind(s: State, slow: bool, a: ReqId, b: ReqId, l: LoopId, wake: nat)
    requires Kept(s) && a in Line(s, slow) && Enabled(s, Submit(l, b, slow, wake))
    ensures var t := Step(s, Submit(l, b, slow, wake)); Kept(t) && a in t.reqs && Behind(t, slow, a, b)
  {
    var t := Step(s, Submit(l, b, slow, wake));
    LinesSound(s);
    StepKept(s, Submit(l, b, slow, wake));
    LinesSound(t);
    LinesMove(s, Submit(l, b, slow, wake));
    StepKeepsOwners(s, Submit(l, b, slow, wake));
    var q := Line(s, slow);
    var i :| 0 <= i < |q| && q[i] == a;
    assert (q + [b])[i] == a && (q + [b])[|q|] == b;
    assert b in Line(t, slow);
  }

  // ---- Finished work ----

  /** The requests that have come back to a loop, in the order in which `done` is to be called. */
  function LoopLine(s: State, l: LoopId): seq<ReqId>
    requires l < |s.loops|
  {
    s.loops[l].drain + s.loops[l].wq
  }

  lemma {:induction false} WithoutConcat(a: seq<ReqId>, b: seq<ReqId>, x: ReqId)
    ensures Without(a + b, x) == Without(a, x) + Without(b, x)
    decreases |a|
  {
    if a == [] {
      NothingAround(b);
      NothingAround(Without(b, x));
    } else {
      assert (a + b)[0] == a[0] && (a + b)[1..] == a[1..] + b;
      WithoutConcat(a[1..], b, x);
      Associates([a[0]], Without(a[1..], x), Without(b, x));
    }
  }

  /** Who joins the end of the line of loop l. */
  function Joins(s: State, a: Action, l: LoopId): seq<ReqId>
    requires Enabled(s, a)
  {
    if a.Publish? && s.reqs[s.workers[a.w].id].loop == l then [s.workers[a.w].id]
    else if a == CancelEnd(l) then [s.loops[l].cancelling.value]
    else []
  }

  lemma {:induction false} CallMoves(s: State, m: LoopId, l: LoopId)
    requires Enabled(s, CallDone(m)) && l < |s.loops|
    ensures var t := Step(s, CallDone(m));
      && l < |t.loops| && LoopLine(s, m) != [] && |t.done| == |s.done| + 1 && s.done <= t.done
      && t.done[|s.done|].0 == LoopLine(s, m)[0]
      && LoopLine(t, l) == if m == l then LoopLine(s, l)[1..] else LoopLine(s, l)
  {
    var d, q := s.loops[m].drain, s.loops[m].wq;
    assert (d + q)[1..] == d[1..] + q && (d + q)[0] == d[0];
  }

  lemma {:induction false} CancelMovesLine(s: State, m: LoopId, id: ReqId, l: LoopId)
    requires Enabled(s, CancelBegin(m, id)) && l < |s.loops|
    ensures var t := Step(s, CancelBegin(m, id));
      && l < |t.loops| && (m != l ==> LoopLine(t, l) == LoopLine(s, l))
      && (LoopLine(t, l) == LoopLine(s, l) || LoopLine(t, l) == Without(LoopLine(s, l), id))
  {
    WithoutConcat(s.loops[l].drain, s.loops[l].wq, id);
  }

  lemma {:induction false} JoinsLine(s: State, a: Action, l: LoopId)
    requires Enabled(s, a) && l < |s.loops| && (a.Publish? || a.CancelEnd? || a.DrainBegin?)
    ensures var t := Step(s, a); l < |t.loops| && LoopLine(t, l) == LoopLine(s, l) + Joins(s, a, l)
  {
    NothingAround(LoopLine(s, l));
    NothingAround(s.loops[l].wq);
    if a.Publish? { Associates(s.loops[l].drain, s.loops[l].wq, [s.workers[a.w].id]); }
    if a.CancelEnd? { Associates(s.loops[l].drain, s.loops[l].wq, [s.loops[a.l].cancelling.value]); }
  }

  /** How one step changes the line of a loop: a request that a worker has finished with, or that has been cancelled, goes
      to its end; `done` is called for the first one; a cancel takes out the request it names; and nothing else, the
      taking over of the queue included, touches it. */
  lemma {:induction false} LoopLineMoves(s: State, a: Action, l: LoopId)
    requires Enabled(s, a) && l < |s.loops|
    ensures var t := Step(s, a);
      && l < |t.loops|
      && if a == CallDone(l) then
           && LoopLine(s, l) != [] && LoopLine(t, l) == LoopLine(s, l)[1..]
           && |t.done| == |s.done| + 1 && s.done <= t.done && t.done[|s.done|].0 == LoopLine(s, l)[0]
         else if a.CancelBegin? && a.l == l then
           LoopLine(t, l) == LoopLine(s, l) || LoopLine(t, l) == Without(LoopLine(s, l), a.id)
         else LoopLine(t, l) == LoopLine(s, l) + Joins(s, a, l)
  {
    NothingAround(LoopLine(s, l));
    if a.CallDone? {
      CallMoves(s, a.l, l);
    } else if a.CancelBegin? {
      CancelMovesLine(s, a.l, a.id, l);
    } else if a.WorkerRun? {
      TopKeepsLoops(TakeMutex(s, a.w), a.w, a.wake);
    } else if a.Publish? || a.CancelEnd? || a.DrainBegin? {
      JoinsLine(s, a, l);
    }
  }
}
