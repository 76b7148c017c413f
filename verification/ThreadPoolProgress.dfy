/** The pool comes to rest: left alone, it finishes every request in a bounded number of steps. */
module ThreadPoolProgress {
  import opened Wrappers
  import opened SeqFacts
  import opened ThreadPool
  import opened ThreadPoolRequests

  /** What the pool does of itself: the steps of workers, of a cancel in progress and of a loop with finished work. All
      else is up to others: submitting, calling cancel, and the operating system waking a thread for no reason. */
  predicate Internal(s: State, a: Action) {
    || a.WorkerRun? || a.Publish? || a.CancelEnd? || a.CallDone?
    || (a.DrainBegin? && a.l < |s.loops| && s.loops[a.l].wq != [])
  }

  predicate Ready(s: State, a: Action) { Enabled(s, a) && Internal(s, a) }

  // ---- A measure ----

  predicate IsWork(q: Item) { q.Work? }

  function PhaseWeight(ph: Phase): nat { if ph.Asleep? then 0 else if ph.Running? then 4 else 1 }

  function LoopWeight(lp: Loop): nat { 2 * |lp.wq| + |lp.drain| + if lp.cancelling.Some? then 3 else 0 }

  /** A bound on the steps the pool can still take of itself. */
  function Weight(s: State): nat {
    5 * Count(s.wq, IsWork) + 5 * |s.slowPending| + Sum(s.workers, PhaseWeight) + Sum(s.loops, LoopWeight)
  }

  lemma PhaseWeighs(s: State, w: nat, ph: Phase)
    requires w < |s.workers|
    ensures Weight(SetPhase(s, w, ph)) == Weight(s) - PhaseWeight(s.workers[w]) + PhaseWeight(ph)
  {
    SumUpdate(s.workers, PhaseWeight, w, ph);
  }

  lemma SignalWeighs(s: State, wake: nat)
    ensures Weight(Signal(s, wake)) <= Weight(s) + 1
  {
    if s.idleThreads > 0 && wake < |s.workers| && s.workers[wake] == Asleep { PhaseWeighs(s, wake, Woken); }
  }

  lemma HeadWeighs(q: seq<Item>)
    requires q != []
    ensures Count(q, IsWork) == Count(q[1..], IsWork) + if q[0].Work? then 1 else 0
  {
  }

  lemma PutBackWeighs(s: State, w: nat, wake: nat)
    requires w < |s.workers| && s.workers[w] == Starting
    ensures var t := PutBack(s, wake); w < |t.workers| && t.workers[w] == Starting && Weight(t) <= Weight(s) + 1
  {
    CountSnoc(s.wq, IsWork, RunSlow);
    SignalWeighs(s.(wq := s.wq + [RunSlow], markerSelfLinked := false), wake);
  }

  lemma StartWeighs(s: State, w: nat, id: ReqId, slow: bool)
    requires w < |s.workers| && s.workers[w] == Starting
    ensures Weight(StartWork(s, w, id, slow)) == Weight(s) + 3
  {
    PhaseWeighs(s.(ran := s.ran + {id}), w, Running(id, slow));
  }

  lemma BeginSlowWeighs(s: State)
    requires s.wq != [] && s.wq[0] == RunSlow && s.slowPending != []
    ensures Weight(BeginSlow(s)) == Weight(s) - 5 && BeginSlow(s).workers == s.workers
  {
    HeadWeighs(s.wq);
  }

  lemma TakeSlowLowers(s: State, w: nat, wake: nat)
    requires w < |s.workers| && s.workers[w] == Starting && s.wq != [] && s.wq[0] == RunSlow && s.slowPending != []
    ensures Weight(TakeSlow(s, w, wake)) < Weight(s)
  {
    BeginSlowWeighs(s);
    PutBackWeighs(BeginSlow(s), w, wake);
    StartWeighs(PutBack(BeginSlow(s), wake), w, s.slowPending[0], true);
  }

  lemma TakeWorkLowers(s: State, w: nat)
    requires w < |s.workers| && s.workers[w] == Starting && s.wq != [] && s.wq[0].Work?
    ensures Weight(TakeWork(s, w)) < Weight(s)
  {
    var id := s.wq[0].id;
    var s1 := SelfLink(s.(wq := s.wq[1..]), id);
    HeadWeighs(s.wq);
    StartWeighs(s1, w, id, false);
  }

  lemma TopLowers(s: State, w: nat, wake: nat)
    requires w < |s.workers| && s.workers[w] == Starting && MarkerOnce(s)
    ensures Weight(WorkerTop(s, w, wake)) < Weight(s)
    decreases if s.wq != [] && s.wq[0] == RunSlow then 1 else 0
  {
    if MustWait(s) {
      PhaseWeighs(s.(idleThreads := s.idleThreads + 1), w, Asleep);
    } else if s.wq[0].Work? {
      TakeWorkLowers(s, w);
    } else {
      var rest := s.wq[1..];
      MarkerTail(s);
      HeadWeighs(s.wq);
      if s.slowRunning >= Threshold(s) {
        assert rest[0] == s.wq[1];
        CountSnoc(rest, IsWork, RunSlow);
        TopLowers(s.(wq := rest + [RunSlow], markerSelfLinked := false), w, wake);
      } else if s.slowPending == [] {
        TopLowers(s.(wq := rest, markerSelfLinked := true), w, wake);
      } else {
        TakeSlowLowers(s, w, wake);
      }
    }
  }

  lemma MutexWeighs(s: State, w: nat)
    requires w < |s.workers| && (s.workers[w].Starting? || s.workers[w].Woken? || s.workers[w].Returning?)
    ensures Weight(TakeMutex(s, w)) == Weight(s)
  {
    PhaseWeighs(s, w, Starting);
  }

  lemma PublishLowers(s: State, w: nat)
    requires Enabled(s, Publish(w))
    ensures Weight(Step(s, Publish(w))) < Weight(s)
  {
    var id := s.workers[w].id;
    var l := s.reqs[id].loop;
    SumUpdate(s.loops, LoopWeight, l, s.loops[l].(wq := s.loops[l].wq + [id]));
    SumUpdate(s.workers, PhaseWeight, w, Returning(s.workers[w].slow));
  }

  /** Every step the pool takes of itself lowers the measure. */
  lemma StepLowers(s: State, a: Action)
    requires Ready(s, a)
    ensures Weight(Step(s, a)) < Weight(s)
  {
    match a
    case WorkerRun(w, wake) =>
      MutexWeighs(s, w);
      TopLowers(TakeMutex(s, w), w, wake);
    case Publish(w) => PublishLowers(s, w);
    case CancelEnd(l) =>
      var lp := s.loops[l];
      SumUpdate(s.loops, LoopWeight, l, lp.(wq := lp.wq + [lp.cancelling.value], cancelling := None));
    case DrainBegin(l) => SumUpdate(s.loops, LoopWeight, l, s.loops[l].(wq := [], drain := s.loops[l].wq));
    case CallDone(l) => SumUpdate(s.loops, LoopWeight, l, s.loops[l].(drain := s.loops[l].drain[1..]));
  }

  // ---- Something to do ----

  lemma AwakeReady(s: State, loc: map<ReqId, Place>, w: nat)
    requires Conserved(s, loc) && MarkerOnce(s) && w < |s.workers| && !s.workers[w].Asleep?
    ensures exists a :: Ready(s, a)
  {
    WorkerNotStuck(s, loc, w);
    if s.workers[w].Running? {
      assert Ready(s, Publish(w));
    } else {
      var wake :| Enabled(s, WorkerRun(w, wake));
      assert Ready(s, WorkerRun(w, wake));
    }
  }

  /** With all workers asleep there is nothing queued. */
  lemma AllAsleep(s: State)
    requires InSync(s, 0) && s.workers != [] && forall w :: 0 <= w < |s.workers| ==> s.workers[w].Asleep?
    ensures s.wq == [] && s.slowPending == []
  {
    CountAll(s.workers, ASLEEP);
    CountSome(s.workers, WOKEN);
    CountSome(s.workers, HOLDS_SLOW);
  }

  lemma QueuedReady(s: State, loc: map<ReqId, Place>, id: ReqId)
    requires Conserved(s, loc) && InSync(s, 0) && s.workers != [] && (Work(id) in s.wq || id in s.slowPending)
    ensures exists a :: Ready(s, a)
  {
    if forall w :: 0 <= w < |s.workers| ==> s.workers[w].Asleep? {
      AllAsleep(s);
    } else {
      var w :| 0 <= w < |s.workers| && !s.workers[w].Asleep?;
      AwakeReady(s, loc, w);
    }
  }

  lemma LoopReady(s: State, loc: map<ReqId, Place>, l: LoopId)
    requires Conserved(s, loc) && l < |s.loops|
    requires s.loops[l].cancelling.Some? || s.loops[l].drain != [] || s.loops[l].wq != []
    ensures exists a :: Ready(s, a)
  {
    LoopNotStuck(s, loc, l);
    if s.loops[l].cancelling.Some? {
      assert Ready(s, CancelEnd(l));
    } else if s.loops[l].drain != [] {
      assert Ready(s, CallDone(l));
    } else {
      assert Ready(s, DrainBegin(l));
    }
  }

  /** As long as a request is not finished, the pool can take a step of itself. */
  lemma UnfinishedReady(s: State, loc: map<ReqId, Place>, id: ReqId)
    requires Conserved(s, loc) && InSync(s, 0) && s.workers != [] && id in s.reqs && !Finished(s, id)
    ensures exists a :: Ready(s, a)
  {
    assert At(s, id, loc[id]);
    match loc[id]
    case InWq => QueuedReady(s, loc, id);
    case InSlowQueue => QueuedReady(s, loc, id);
    case OnWorker(w) => AwakeReady(s, loc, w);
    case BeingCancelled(l) => LoopReady(s, loc, l);
    case InLoopQueue(l) => LoopReady(s, loc, l);
    case BeingDrained(l) => LoopReady(s, loc, l);
  }

  // ---- Coming to rest ----

  /** A run in which the pool is left alone. */
  predicate LeftAlone(s: State, acts: seq<Action>)
    decreases |acts|
  {
    acts == [] || (Ready(s, acts[0]) && LeftAlone(Step(s, acts[0]), acts[1..]))
  }

  lemma {:induction false} LeftAloneIsShort(s: State, acts: seq<Action>)
    requires LeftAlone(s, acts)
    ensures Legal(s, acts) && |acts| + Weight(After(s, acts)) <= Weight(s)
    decreases |acts|
  {
    if acts != [] {
      StepLowers(s, acts[0]);
      LeftAloneIsShort(Step(s, acts[0]), acts[1..]);
    }
  }

  predicate AllFinished(s: State) { forall id :: id in s.reqs ==> Finished(s, id) }

  predicate NobodyAwake(s: State) { forall w :: 0 <= w < |s.workers| ==> s.workers[w].Asleep? }

  /** A loop with something in hand has a request that is not finished. */
  lemma LoopBusy(s: State, loc: map<ReqId, Place>, l: LoopId)
    requires Conserved(s, loc) && l < |s.loops|
    requires s.loops[l].cancelling.Some? || s.loops[l].drain != [] || s.loops[l].wq != []
    ensures !AllFinished(s)
  {
    var lp := s.loops[l];
    var id, place := if lp.cancelling.Some? then lp.cancelling.value else if lp.drain != [] then lp.drain[0] else lp.wq[0],
                     if lp.cancelling.Some? then BeingCancelled(l) else if lp.drain != [] then BeingDrained(l) else InLoopQueue(l);
    assert At(s, id, place);
    assert !At(s, id, Over);
  }

  /** The pool has nothing to do of itself exactly when all requests are finished and all workers sleep. */
  lemma AtRest(s: State, loc: map<ReqId, Place>)
    requires Conserved(s, loc) && InSync(s, 0) && s.workers != []
    ensures (forall a :: !Ready(s, a)) <==> AllFinished(s) && NobodyAwake(s)
  {
    if forall a :: !Ready(s, a) {
      forall id | id in s.reqs ensures Finished(s, id) {
        if !Finished(s, id) { UnfinishedReady(s, loc, id); }
      }
      forall w | 0 <= w < |s.workers| ensures s.workers[w].Asleep? {
        if !s.workers[w].Asleep? { AwakeReady(s, loc, w); }
      }
    }
    if a :| Ready(s, a) {
      if a.CancelEnd? || a.DrainBegin? || a.CallDone? { LoopBusy(s, loc, a.l); }
    }
  }

  /** After any run, the pool left alone takes a bounded number of steps, and it can stop exactly when every request
      submitted is finished and every worker sleeps. */
  lemma {:induction false} ComesToRest(nthreads: nat, nloops: nat, acts: seq<Action>, more: seq<Action>)
    requires nthreads > 0 && Legal(Init(nthreads, nloops), acts)
    requires LeftAlone(After(Init(nthreads, nloops), acts), more)
    ensures var s := After(Init(nthreads, nloops), acts);
      && Legal(s, more) && |more| <= Weight(s)
      && ((forall a :: !Ready(After(s, more), a)) <==> AllFinished(After(s, more)) && NobodyAwake(After(s, more)))
  {
    InitKept(nthreads, nloops);
    RunKept(Init(nthreads, nloops), acts);
    RestsAfter(After(Init(nthreads, nloops), acts), more);
  }

  lemma {:induction false} RestsAfter(s: State, more: seq<Action>)
    requires Kept(s) && s.workers != [] && LeftAlone(s, more)
    ensures Legal(s, more) && |more| <= Weight(s)
    ensures (forall a :: !Ready(After(s, more), a)) <==> AllFinished(After(s, more)) && NobodyAwake(After(s, more))
  {
    LeftAloneIsShort(s, more);
    RunKept(s, more);
    var loc := KeptMeans(After(s, more));
    AtRest(After(s, more), loc);
  }
}
