/** The critical sections of the thread pool in the shape of the code, on the linked queues: each section is shown to be
    one step of the protocol. Whether a node is queued, executing or neither is read off its links, as the code does. */
module ThreadPoolCode {
  import opened Wrappers
  import opened SeqFacts
  import opened Queue
  import opened QueueSet
  import opened ThreadPool
  import opened ThreadPoolRequests
  import opened ThreadPoolView
  import opened ThreadPoolDrain
  import opened ThreadPoolOrder

  class Pool {
    const qs: Queues
    const marker: Node                       // run_slow_work_message
    var node: map<ReqId, Node>               // the queue node inside each request
    var owner: map<Node, ReqId>              // container_of
    var info: map<ReqId, Info>
    var idleThreads: int
    var slowRunning: int
    var workers: seq<Phase>
    var cancelling: seq<Option<ReqId>>       // what each loop thread is in the middle of cancelling
    var done: seq<(ReqId, Status)>
    ghost var ran: set<ReqId>
    ghost var cancelReturnedZero: set<ReqId>
    /** The state of the protocol. */
    ghost var now: State

    ghost function Books(): Book
      reads this
    {
      Book(marker, owner, node, info, idleThreads, slowRunning, workers, cancelling, done, ran, cancelReturnedZero)
    }

    /** `now` is what the fields, the queues and the links of the nodes say. Quantified only so that the details stay out
        of sight until `Detail` is named. */
    ghost predicate Linked()
      reads this, qs, qs.repr
    {
      && now.idleThreads == idleThreads && now.slowRunning == slowRunning && now.workers == workers && now.done == done
      && now.ran == ran && now.cancelReturnedZero == cancelReturnedZero
      && node.Keys == info.Keys == now.reqs.Keys && |now.loops| == |cancelling|
      && forall z: int :: Detail(z)
    }

    ghost predicate Detail(z: int)
      reads this, qs, qs.repr
    {
      qs.Valid() && Reads(Links(qs.items, qs.flags), Books(), now)
    }

    lemma Open()
      requires Linked()
      ensures Detail(0)
    {
    }

    lemma Close()
      requires Detail(0)
      ensures Linked()
    {
      forall z: int ensures Detail(z) { assert Detail(0); }
    }

    /** Holds whenever the global mutex is free. */
    ghost predicate Valid()
      reads this, qs, qs.repr
    {
      Linked() && Kept(now)
    }

    /** The state after `init_threads`, and event loops that have just been initialised. */
    constructor (nthreads: nat, nloops: nat)
      ensures Valid() && now == ThreadPool.Init(nthreads, nloops) && fresh(qs) && fresh(qs.repr)
    {
      var heads := InitQueues(2 + 2 * nloops);
      var m := new Node();
      var queues := new Queues(heads, {m});
      qs, marker := queues, m;
      node, owner, info := map[], map[], map[];
      idleThreads, slowRunning := 0, 0;
      workers, cancelling, done := seq(nthreads, _ => Starting), seq(nloops, _ => None), [];
      ran, cancelReturnedZero := {}, {};
      now := ThreadPool.Init(nthreads, nloops);
      new;
      StartState(Links(qs.items, qs.flags), Books(), nthreads, nloops);
      Close();
      InitKept(nthreads, nloops);
    }

    // ---- Queues ----

    /** Takes the first item off `wq`: QUEUE_HEAD, QUEUE_REMOVE and QUEUE_INIT. */
    method PopWork() returns (q: Node)
      requires Linked() && now.wq != []
      modifies this`now, qs, qs.repr
      ensures Linked() && qs.repr == old(qs.repr) && q !in qs.home && (q == marker <==> old(now).wq[0] == RunSlow)
      ensures q == marker ==> now == old(now).(wq := old(now).wq[1..], markerSelfLinked := true)
      ensures q != marker ==> q in owner && old(now).wq[0] == Work(owner[q])
      ensures q != marker ==> now == SelfLink(old(now).(wq := old(now).wq[1..]), owner[q])
    {
      Open();
      WorkPopped(Links(qs.items, qs.flags), Books(), now);
      q := qs.PopFirst(WORK_QUEUE);
      now := if q == marker then now.(wq := now.wq[1..], markerSelfLinked := true)
             else SelfLink(now.(wq := now.wq[1..]), owner[q]);
      Close();
    }

    /** The same for the slow queue. */
    method PopSlow() returns (q: Node)
      requires Linked() && now.slowPending != []
      modifies this`now, qs, qs.repr
      ensures Linked() && qs.repr == old(qs.repr) && q in owner && owner[q] == old(now).slowPending[0]
      ensures marker in qs.home <==> marker in old(qs.home)
      ensures now == SelfLink(old(now).(slowPending := old(now).slowPending[1..]), owner[q])
    {
      Open();
      SlowPopped(Links(qs.items, qs.flags), Books(), now);
      q := qs.PopFirst(SLOW_QUEUE);
      now := SelfLink(now.(slowPending := now.slowPending[1..]), owner[q]);
      Close();
    }

    /** QUEUE_INSERT_TAIL of the marker. */
    method PostMarker()
      requires Linked() && marker !in qs.home
      modifies this`now, qs, qs.repr
      ensures Linked() && qs.repr == old(qs.repr)
      ensures now == old(now).(wq := old(now).wq + [RunSlow], markerSelfLinked := false)
    {
      Open();
      MarkerPosted(Links(qs.items, qs.flags), Books(), now);
      qs.FlaggedIsMember(marker);
      qs.Append(WORK_QUEUE, marker);
      now := now.(wq := now.wq + [RunSlow], markerSelfLinked := false);
      Close();
    }

    /** QUEUE_INSERT_TAIL of a request's node, in `wq` or in the slow queue. */
    method PostRequest(k: nat, id: ReqId)
      requires Linked() && k < 2 && id in node && node[id] !in qs.home
      modifies this`now, qs, qs.repr
      ensures Linked() && qs.repr == old(qs.repr) && id in old(now).reqs
      ensures marker in qs.home <==> marker in old(qs.home)
      ensures now == AtTail(old(now), k, id)
    {
      Open();
      RequestRead(Links(qs.items, qs.flags), Books(), now, id);
      WorkPosted(Links(qs.items, qs.flags), Books(), now, id, k);
      qs.FlaggedIsMember(node[id]);
      qs.Append(k, node[id]);
      now := AtTail(now, k, id);
      Close();
    }

    /** QUEUE_INSERT_TAIL of a request's node in a loop's queue. */
    method PostToLoop(l: LoopId, id: ReqId)
      requires Linked() && l < |cancelling| && id in node && node[id] !in qs.home
      modifies this`now, qs, qs.repr
      ensures Linked() && qs.repr == old(qs.repr) && id in old(now).reqs && l < |old(now).loops|
      ensures now == AtLoop(old(now), l, id)
    {
      Open();
      RequestRead(Links(qs.items, qs.flags), Books(), now, id);
      LoopPosted(Links(qs.items, qs.flags), Books(), now, l, id);
      qs.FlaggedIsMember(node[id]);
      qs.Append(LoopQueue(l), node[id]);
      now := now.(loops := now.loops[l := now.loops[l].(wq := now.loops[l].wq + [id])],
                  reqs := now.reqs[id := now.reqs[id].(selfLinked := false)]);
      Close();
    }

    /** QUEUE_EMPTY of a request's own node, the sign that it is executing. */
    method Executing(id: ReqId) returns (e: bool)
      requires Linked() && id in node
      ensures id in now.reqs && e == now.reqs[id].selfLinked
    {
      Open();
      RequestRead(Links(qs.items, qs.flags), Books(), now, id);
      qs.FlaggedIsMember(node[id]);
      e := node[id].next == node[id];
    }

    // ---- Counters, workers and history ----

    /** Fields that are not queues. */
    method Set(idle: int, slow: int, phases: seq<Phase>, ghost hasRun: set<ReqId>)
      requires Linked()
      modifies this`idleThreads, this`slowRunning, this`workers, this`ran, this`now
      ensures Linked() && now == old(now).(idleThreads := idle, slowRunning := slow, workers := phases, ran := hasRun)
    {
      Open();
      ghost var ln, b := Links(qs.items, qs.flags), Books();
      ghost var c := b.(idleThreads := idle, slowRunning := slow, workers := phases, ran := hasRun);
      Plain(ln, b, c, now);
      idleThreads, slowRunning, workers, ran := idle, slow, phases, hasRun;
      now := now.(idleThreads := idle, slowRunning := slow, workers := phases, ran := hasRun);
      assert Books() == c;
      Close();
    }

    /** uv_cond_signal; the caller has checked that a thread is idle. */
    method CondSignal(wake: nat)
      requires Linked() && idleThreads > 0
      modifies this`idleThreads, this`slowRunning, this`workers, this`ran, this`now
      ensures Linked() && now == Signal(old(now), wake)
    {
      if wake < |workers| && workers[wake] == Asleep {
        Set(idleThreads, slowRunning, workers[wake := Woken], now.ran);
      }
    }

    /** The `work` pointer of a request. */
    method SetWork(id: ReqId, fn: WorkFn)
      requires Linked() && id in info
      modifies this`info, this`now
      ensures Linked() && id in old(now).reqs && now == WithWork(old(now), id, fn)
    {
      Open();
      ghost var f := Info(info[id].loop, fn);
      ghost var c := Books().(info := info[id := f]);
      InfoSet(Links(qs.items, qs.flags), Books(), now, id, f);
      RequestRead(Links(qs.items, qs.flags), Books(), now, id);
      info := info[id := Info(info[id].loop, fn)];
      now := now.(reqs := now.reqs[id := now.reqs[id].(work := fn)]);
      assert Books() == c;
      Close();
    }

    /** What a loop thread is cancelling. */
    method SetCancelling(l: LoopId, c: Option<ReqId>)
      requires Linked() && l < |cancelling|
      modifies this`cancelling, this`now
      ensures Linked() && |cancelling| == |old(cancelling)|
      ensures l < |old(now).loops| && now == NowCancelling(old(now), l, c)
    {
      Open();
      ghost var b := Books().(cancelling := cancelling[l := c]);
      CancelSet(Links(qs.items, qs.flags), Books(), now, l, c);
      cancelling := cancelling[l := c];
      now := now.(loops := now.loops[l := now.loops[l].(cancelling := c)]);
      assert Books() == b;
      Close();
    }

    // ---- The worker ----

    /** Bookkeeping on taking the global mutex. */
    method LockMutex(w: nat)
      requires Linked() && w < |workers|
      modifies this`idleThreads, this`slowRunning, this`workers, this`ran, this`now
      ensures Linked() && now == TakeMutex(old(now), w)
    {
      var idle, slow := idleThreads, slowRunning;
      match workers[w] {
        case Woken => idle := idle - 1;
        case Returning(isSlow) => if isSlow { slow := slow - 1; }
        case _ =>
      }
      Set(idle, slow, workers[w := Starting], now.ran);
    }

    /** The condition of the waiting loop, read off the links. */
    method MustSleep() returns (wait: bool)
      requires Linked()
      ensures wait == MustWait(now)
    {
      Open();
      WaitsWhen(Links(qs.items, qs.flags), Books(), now);
      var empty := qs.IsEmpty(WORK_QUEUE);
      if empty {
        return true;
      }
      var h := qs.First(WORK_QUEUE);
      qs.OnlyOne(WORK_QUEUE);
      wait := h == marker && h.next == qs.heads[WORK_QUEUE] && slowRunning >= (|workers| + 1) / 2;
    }

    method SlowEmpty() returns (e: bool)
      requires Linked()
      ensures e == (now.slowPending == [])
    {
      Open();
      SlowRead(Links(qs.items, qs.flags), Books(), now);
      e := qs.IsEmpty(SLOW_QUEUE);
    }

    /** The marker goes back if there is more slow work. */
    method PutMarkerBack(wake: nat)
      requires Linked() && marker !in qs.home
      modifies this`idleThreads, this`slowRunning, this`workers, this`ran, this`now, qs, qs.repr
      ensures Linked() && qs.repr == old(qs.repr) && |workers| == |old(workers)| && now == PutBack(old(now), wake)
    {
      var last := SlowEmpty();
      if !last {
        PostMarker();
        if idleThreads > 0 { CondSignal(wake); }
      }
    }

    /** With the marker in hand: takes one slow request, and puts the marker back if there are more. */
    method RunOneSlow(w: nat, wake: nat)
      requires Linked() && w < |workers| && marker !in qs.home && now.slowPending != []
      modifies this`idleThreads, this`slowRunning, this`workers, this`ran, this`now, qs, qs.repr
      ensures Linked() && qs.repr == old(qs.repr) && |workers| == |old(workers)|
      ensures now == AfterMarker(old(now), w, wake)
    {
      var id := FirstSlow();
      PutMarkerBack(wake);
      Set(idleThreads, slowRunning, workers[w := Running(id, true)], now.ran + {id});
    }

    method FirstSlow() returns (id: ReqId)
      requires Linked() && marker !in qs.home && now.slowPending != []
      modifies this`idleThreads, this`slowRunning, this`workers, this`ran, this`now, qs, qs.repr
      ensures Linked() && qs.repr == old(qs.repr) && marker !in qs.home && id == old(now).slowPending[0]
      ensures now == OneSlow(old(now))
    {
      Set(idleThreads, slowRunning + 1, workers, now.ran);
      var q := PopSlow();
      id := owner[q];
    }

    /** `worker`, from the top of its loop with the mutex held to sleeping, or to unlocking with a request in hand. */
    method WorkerLoop(w: nat, wake: nat)
      requires Linked() && w < |workers| && MarkerOnce(now)
      modifies this`idleThreads, this`slowRunning, this`workers, this`ran, this`now, qs, qs.repr
      ensures Linked() && qs.repr == old(qs.repr) && now == WorkerTop(old(now), w, wake)
    {
      forall s ensures TopAt(Topper(w, wake), w, wake, s) { TopperTurns(w, wake, s); }
      WorkerTurns(w, wake, Topper(w, wake));
    }

    /** The loop; `top` is what a worker does from the top of it. */
    method WorkerTurns(w: nat, wake: nat, ghost top: State -> State)
      requires Linked() && w < |workers| && MarkerOnce(now) && forall s :: TopAt(top, w, wake, s)
      modifies this`idleThreads, this`slowRunning, this`workers, this`ran, this`now, qs, qs.repr
      ensures Linked() && qs.repr == old(qs.repr) && now == top(old(now))
    {
      var again := true;
      while again
        invariant Linked() && qs.repr == old(qs.repr) && w < |workers|
        invariant if again then MarkerOnce(now) && top(now) == top(old(now)) else now == top(old(now))
        decreases again, if now.wq != [] && now.wq[0] == RunSlow then 1 else 0
      {
        again := Turn(w, wake, top);
      }
    }

    /** One turn of the loop; it goes round again after dealing with the marker alone. */
    method Turn(w: nat, wake: nat, ghost top: State -> State) returns (again: bool)
      requires Linked() && w < |workers| && MarkerOnce(now) && forall s :: TopAt(top, w, wake, s)
      modifies this`idleThreads, this`slowRunning, this`workers, this`ran, this`now, qs, qs.repr
      ensures Linked() && qs.repr == old(qs.repr) && |workers| == |old(workers)|
      ensures again ==> MarkerOnce(now) && top(now) == top(old(now))
      ensures again ==> old(now).wq != [] && old(now).wq[0] == RunSlow && (now.wq == [] || now.wq[0] != RunSlow)
      ensures !again ==> now == top(old(now))
    {
      assert TopAt(top, w, wake, now);
      var wait := MustSleep();
      if wait {
        Set(idleThreads + 1, slowRunning, workers[w := Asleep], now.ran);
        return false;
      }
      ghost var s := now;
      var q := PopWork();
      if q != marker {
        Set(idleThreads, slowRunning, workers[w := Running(owner[q], false)], now.ran + {owner[q]});
        return false;
      }
      again := MarkerTurn(w, wake, s);
      WorkFirst(s);
    }

    /** With the marker off the queue: at the threshold it goes back, with no slow work it stays off, and otherwise one
        slow request is taken. */
    method MarkerTurn(w: nat, wake: nat, ghost s: State) returns (again: bool)
      requires Linked() && w < |workers| && marker !in qs.home && s.wq != [] && s.wq[0] == RunSlow
      requires now == s.(wq := s.wq[1..], markerSelfLinked := true)
      modifies this`idleThreads, this`slowRunning, this`workers, this`ran, this`now, qs, qs.repr
      ensures Linked() && qs.repr == old(qs.repr) && |workers| == |old(workers)|
      ensures again == (s.slowRunning >= Threshold(s) || s.slowPending == [])
      ensures s.slowRunning >= Threshold(s) ==> now == s.(wq := s.wq[1..] + [RunSlow], markerSelfLinked := false)
      ensures s.slowRunning < Threshold(s) && s.slowPending == [] ==> now == s.(wq := s.wq[1..], markerSelfLinked := true)
      ensures !again ==> now == TakeSlow(s, w, wake)
    {
      if slowRunning >= (|workers| + 1) / 2 {
        PostMarker();
        return true;
      }
      var none := SlowEmpty();
      if none {
        return true;
      }
      SlowParts(s, w, wake);
      RunOneSlow(w, wake);
      again := false;
    }

    /** `worker`, from taking the global mutex on: one step of the protocol. */
    method WorkerSection(w: nat, wake: nat)
      requires Valid() && Enabled(now, WorkerRun(w, wake))
      modifies this`idleThreads, this`slowRunning, this`workers, this`ran, this`now, qs, qs.repr
      ensures Valid() && qs.repr == old(qs.repr) && now == Step(old(now), WorkerRun(w, wake))
    {
      StepKept(now, WorkerRun(w, wake));
      LockMutex(w);
      WorkerLoop(w, wake);
    }

    // ---- Publishing, submitting, cancelling, finishing ----

    /** History. */
    method Record(finished: seq<(ReqId, Status)>, ghost zero: set<ReqId>)
      requires Linked()
      modifies this`done, this`cancelReturnedZero, this`now
      ensures Linked() && now == old(now).(done := finished, cancelReturnedZero := zero)
    {
      Open();
      ghost var c := Books().(done := finished, cancelReturnedZero := zero);
      Plain(Links(qs.items, qs.flags), Books(), c, now);
      done, cancelReturnedZero := finished, zero;
      now := now.(done := finished, cancelReturnedZero := zero);
      assert Books() == c;
      Close();
    }

    /** A request that is executing has its node in no queue. */
    lemma ExecutingIsFree(id: ReqId)
      requires Linked() && id in node && id in now.reqs && now.reqs[id].selfLinked
      ensures node[id] !in qs.home
    {
      Open();
      RequestRead(Links(qs.items, qs.flags), Books(), now, id);
      qs.SelfLinkedIsFree(node[id]);
    }

    lemma MarkerIsFree()
      requires Linked() && now.markerSelfLinked
      ensures marker !in qs.home
    {
      Open();
      Expose(Links(qs.items, qs.flags), Books(), now);
      qs.SelfLinkedIsFree(marker);
    }

    /** A request that is being cancelled has its node in no queue. */
    lemma CancellingIsFree(l: LoopId, id: ReqId)
      requires Valid() && id in node && At(now, id, BeingCancelled(l))
      ensures node[id] !in qs.home
    {
      Open();
      RequestRead(Links(qs.items, qs.flags), Books(), now, id);
      CancellingNotQueued(Links(qs.items, qs.flags), Books(), now, l, id);
      qs.NotQueued(node[id]);
    }

    /** The loop a request belongs to. */
    method LoopOf(id: ReqId) returns (l: LoopId)
      requires Linked() && id in node
      ensures id in now.reqs && l == now.reqs[id].loop && info[id].work == now.reqs[id].work
    {
      Open();
      RequestRead(Links(qs.items, qs.flags), Books(), now, id);
      l := info[id].loop;
    }

    /** The loop-mutex section at the end of an iteration of `worker`. */
    method PublishSection(w: nat)
      requires Valid() && Enabled(now, Publish(w))
      modifies this, qs, qs.repr
      ensures Valid() && qs.repr == old(qs.repr) && now == Step(old(now), Publish(w))
    {
      StepKept(now, Publish(w));
      PublishedParts(now, w);
      HeldIsSelfLinked(now, w);
      var id, slow := workers[w].id, workers[w].slow;
      var l := LoopOf(id);
      ExecutingIsFree(id);
      GiveBack(l, id, Null);
      Set(idleThreads, slowRunning, workers[w := Returning(slow)], now.ran);
    }

    /** A request goes back to its loop, with its `work` pointer saying how it ended. */
    method GiveBack(l: LoopId, id: ReqId, fn: WorkFn)
      requires Linked() && l < |cancelling| && id in node && node[id] !in qs.home
      modifies this`info, this`now, qs, qs.repr
      ensures Linked() && qs.repr == old(qs.repr) && id in old(now).reqs && l < |old(now).loops|
      ensures now == AtLoop(WithWork(old(now), id, fn), l, id)
    {
      SetWork(id, fn);
      PostToLoop(l, id);
    }

    /** A request and its node are set up. */
    method Register(l: LoopId, id: ReqId)
      requires Linked() && id !in info
      modifies this, qs
      ensures Linked() && fresh(qs.repr - old(qs.repr)) && id in node
      ensures now == old(now).(reqs := old(now).reqs[id := Request(l, Callback, true)])
    {
      Open();
      Unflagged();
      var q := new Node();
      RegisterNode(l, id, q);
    }

    method RegisterNode(l: LoopId, id: ReqId, q: Node)
      requires Linked() && id !in info && q !in qs.repr && q !in qs.flags && q.next == q
      modifies this`owner, this`node, this`info, this`now, qs
      ensures Linked() && qs.repr == old(qs.repr) + {q} && id in node
      ensures now == old(now).(reqs := old(now).reqs[id := Request(l, Callback, true)])
    {
      Open();
      ghost var ln, b := Links(qs.items, qs.flags), Books();
      ghost var c := b.(owner := owner[q := id], node := node[id := q], info := info[id := Info(l, Callback)]);
      Registered(ln, b, now, id, q, l);
      owner, node, info := owner[q := id], node[id := q], info[id := Info(l, Callback)];
      now := now.(reqs := now.reqs[id := Request(l, Callback, true)]);
      assert Books() == c;
      qs.Adopt(q);
      Close();
    }

    lemma Unflagged()
      requires Linked()
      ensures forall x :: x in qs.flags ==> x in qs.repr
    {
      Open();
      forall x | x in qs.flags ensures x in qs.repr { qs.FlaggedIsMember(x); }
    }

    /** QUEUE_EMPTY of the marker. */
    method MarkerSelfLinked() returns (e: bool)
      requires Linked()
      ensures e == now.markerSelfLinked
    {
      Open();
      Expose(Links(qs.items, qs.flags), Books(), now);
      qs.FlaggedIsMember(marker);
      e := marker.next == marker;
    }

    /** `post` of slow work. */
    method PostSlow(id: ReqId, wake: nat)
      requires Linked() && id in node && node[id] !in qs.home
      modifies this`idleThreads, this`slowRunning, this`workers, this`ran, this`now, qs, qs.repr
      ensures Linked() && qs.repr == old(qs.repr) && id in old(now).reqs
      ensures var t := AtTail(old(now), SLOW_QUEUE, id);
        now == if t.markerSelfLinked then Signal(t.(wq := t.wq + [RunSlow], markerSelfLinked := false), wake) else t
    {
      PostRequest(SLOW_QUEUE, id);
      var free := MarkerSelfLinked();
      if free {
        MarkerIsFree();
        PostMarker();
        if idleThreads > 0 { CondSignal(wake); }
      }
    }

    /** `post` of other work. */
    method PostFast(id: ReqId, wake: nat)
      requires Linked() && id in node && node[id] !in qs.home
      modifies this`idleThreads, this`slowRunning, this`workers, this`ran, this`now, qs, qs.repr
      ensures Linked() && qs.repr == old(qs.repr) && id in old(now).reqs
      ensures now == Signal(AtTail(old(now), WORK_QUEUE, id), wake)
    {
      PostRequest(WORK_QUEUE, id);
      if idleThreads > 0 { CondSignal(wake); }
    }

    /** `uv__work_submit`. */
    method WorkSubmit(l: LoopId, id: ReqId, slow: bool, wake: nat)
      requires Valid() && Enabled(now, Submit(l, id, slow, wake))
      modifies this, qs, qs.repr
      ensures Valid() && fresh(qs.repr - old(qs.repr)) && now == Step(old(now), Submit(l, id, slow, wake))
    {
      StepKept(now, Submit(l, id, slow, wake));
      SubmitParts(now, l, id, slow, wake);
      Register(l, id);
      ExecutingIsFree(id);
      if slow { PostSlow(id, wake); } else { PostFast(id, wake); }
    }

    /** QUEUE_REMOVE of a request's node, from whatever queue it is in. */
    method Unqueue(l: LoopId, id: ReqId)
      requires Valid() && Enabled(now, CancelBegin(l, id)) && Cancellable(now, id)
      modifies this`now, qs, qs.repr
      ensures Linked() && qs.repr == old(qs.repr) && l < |old(now).loops| && now == Unlink(old(now), l, id)
    {
      Open();
      ghost var k, i := Cancels(Links(qs.items, qs.flags), Books(), now, l, id);
      qs.Remove(node[id], k, i);
      now := Unlink(now, l, id);
      Close();
    }

    /** The section of `uv__work_cancel` that holds both mutexes; false means UV_EBUSY: the work has begun. */
    method CancelSection(l: LoopId, id: ReqId) returns (cancelled: bool)
      requires Valid() && Enabled(now, CancelBegin(l, id))
      modifies this, qs, qs.repr
      ensures cancelled == (id !in old(now).ran) == At(now, id, BeingCancelled(l))
      ensures Valid() && qs.repr == old(qs.repr) && now == Step(old(now), CancelBegin(l, id))
    {
      StepKept(now, CancelBegin(l, id));
      CancelDecided(now, l, id);
      var executing := Executing(id);
      var _ := LoopOf(id);
      cancelled := !executing && info[id].work != Null;
      if cancelled {
        Unqueue(l, id);
        SetCancelling(l, Some(id));
      }
    }

    /** The rest of a successful `uv__work_cancel`. */
    method CancelFinish(l: LoopId)
      requires Valid() && Enabled(now, CancelEnd(l))
      modifies this, qs, qs.repr
      ensures Valid() && qs.repr == old(qs.repr) && now == Step(old(now), CancelEnd(l))
    {
      StepKept(now, CancelEnd(l));
      var id := CancellingNow(l);
      CancelledParts(now, l);
      CancellingIsFree(l, id);
      GiveBack(l, id, Cancelled);
      SetCancelling(l, None);
      Record(done, now.cancelReturnedZero + {id});
    }

    method CancellingNow(l: LoopId) returns (id: ReqId)
      requires Linked() && Enabled(now, CancelEnd(l))
      ensures id == now.loops[l].cancelling.value && id in node
    {
      Open();
      DrainRead(Links(qs.items, qs.flags), Books(), now, l);
      id := cancelling[l].value;
    }

    /** The section of `uv__work_done` that takes the queue: QUEUE_MOVE. */
    method DrainSection(l: LoopId)
      requires Valid() && Enabled(now, DrainBegin(l))
      modifies this, qs, qs.repr
      ensures Valid() && qs.repr == old(qs.repr) && now == Step(old(now), DrainBegin(l))
    {
      StepKept(now, DrainBegin(l));
      Open();
      DrainRead(Links(qs.items, qs.flags), Books(), now, l);
      Drained(Links(qs.items, qs.flags), Books(), now, l);
      qs.MoveAll(LoopQueue(l), DrainQueue(l));
      now := now.(loops := now.loops[l := now.loops[l].(wq := [], drain := now.loops[l].wq)]);
      Close();
    }

    /** Takes the next request off the local queue. */
    method PopDrained(l: LoopId) returns (id: ReqId)
      requires Linked() && l < |now.loops| && now.loops[l].drain != []
      modifies this`now, qs, qs.repr
      ensures Linked() && qs.repr == old(qs.repr) && id == old(now).loops[l].drain[0] && id in node
      ensures now == old(now).(loops := old(now).loops[l := old(now).loops[l].(drain := old(now).loops[l].drain[1..])])
    {
      Open();
      DrainPopped(Links(qs.items, qs.flags), Books(), now, l);
      var q := qs.First(DrainQueue(l));
      id := owner[q];
      now := now.(loops := now.loops[l := now.loops[l].(drain := now.loops[l].drain[1..])]);
      qs.Remove(q, DrainQueue(l), 0);
      Close();
    }

    /** One turn of the loop of `uv__work_done`. Between two turns the callback may submit and cancel, which are steps of
        their own. */
    method DoneNext(l: LoopId)
      requires Valid() && Enabled(now, CallDone(l))
      modifies this, qs, qs.repr
      ensures Valid() && qs.repr == old(qs.repr) && now == Step(old(now), CallDone(l))
    {
      StepKept(now, CallDone(l));
      ghost var s := now;
      var id := PopDrained(l);
      var _ := LoopOf(id);
      var err := if info[id].work == Cancelled then ECanceled else Success;
      Record(done + [(id, err)], now.cancelReturnedZero);
    }

    method DrainEmpty(l: LoopId) returns (e: bool)
      requires Linked() && l < |now.loops|
      ensures e == (now.loops[l].drain == [])
    {
      Open();
      DrainRead(Links(qs.items, qs.flags), Books(), now, l);
      e := qs.IsEmpty(DrainQueue(l));
    }

    // ---- Whole runs ----

    /** A wakeup that no signal has caused. */
    method WakeSpuriously(w: nat)
      requires Valid() && Enabled(now, SpuriousWakeup(w))
      modifies this`idleThreads, this`slowRunning, this`workers, this`ran, this`now
      ensures Valid() && now == Step(old(now), SpuriousWakeup(w))
    {
      StepKept(now, SpuriousWakeup(w));
      Set(idleThreads, slowRunning, workers[w := Woken], now.ran);
    }

    /** The section that an action stands for. */
    method Perform(a: Action)
      requires Valid() && Enabled(now, a)
      modifies this, qs, qs.repr
      ensures Valid() && fresh(qs.repr - old(qs.repr)) && now == Step(old(now), a)
    {
      match a {
        case Submit(l, id, slow, wake) => WorkSubmit(l, id, slow, wake);
        case WorkerRun(w, wake) => WorkerSection(w, wake);
        case Publish(w) => PublishSection(w);
        case SpuriousWakeup(w) => WakeSpuriously(w);
        case CancelBegin(l, id) => var _ := CancelSection(l, id);
        case CancelEnd(l) => CancelFinish(l);
        case DrainBegin(l) => DrainSection(l);
        case CallDone(l) => DoneNext(l);
      }
    }

    /** Every run of the protocol is a run of the code. */
    method Execute(acts: seq<Action>)
      requires Valid() && Legal(now, acts)
      modifies this, qs, qs.repr
      ensures Valid() && fresh(qs.repr - old(qs.repr)) && now == After(old(now), acts)
    {
      ghost var start := now;
      assert acts[0..] == acts;
      for i := 0 to |acts|
        invariant Valid() && fresh(qs.repr - old(qs.repr))
        invariant Legal(now, acts[i..]) && After(now, acts[i..]) == After(start, acts)
      {
        assert acts[i..][0] == acts[i] && acts[i..][1..] == acts[i + 1..];
        Perform(acts[i]);
      }
    }

    /** Whether a signal that wakes this worker, or nobody, is one that the condition variable may give. */
    method MayWake(wake: nat) returns (b: bool)
      requires Linked()
      ensures b == GoodWake(now, wake)
    {
      b := (exists w :: 0 <= w < |workers| && workers[w] == Asleep) ==> wake < |workers| && workers[wake] == Asleep;
    }

    /** Whether an action of a worker may happen now. */
    method WorkerMay(a: Action) returns (b: bool)
      requires Valid() && (a.WorkerRun? || a.Publish? || a.SpuriousWakeup?)
      ensures b == Enabled(now, a)
    {
      ghost var loc := KeptMeans(now);
      if a.w >= |workers| {
        return false;
      }
      if a.WorkerRun? {
        b := MayWake(a.wake);
        b := b && (workers[a.w].Starting? || workers[a.w].Woken? || workers[a.w].Returning?);
      } else if a.Publish? {
        if workers[a.w].Running? { WorkerNotStuck(now, loc, a.w); }
        b := workers[a.w].Running?;
      } else {
        b := workers[a.w].Asleep?;
      }
    }

    /** Whether a submit or cancel, or the next step of a cancel or of `uv__work_done`, may happen now. */
    method LoopMay(a: Action) returns (b: bool)
      requires Valid() && (a.Submit? || a.CancelBegin? || a.CancelEnd? || a.DrainBegin? || a.CallDone?)
      ensures b == Enabled(now, a)
    {
      if a.l >= |cancelling| {
        return false;
      }
      KeptNotStuck(now, a.l);
      match a
      case Submit(l, id, _, wake) =>
        b := MayWake(wake);
        b := b && id !in info;
      case CancelBegin(l, id) =>
        var idle := NotCancelling(l);
        if !idle || id !in info {
          return false;
        }
        var m := LoopOf(id);
        b := m == l && !exists i :: 0 <= i < |done| && done[i].0 == id;
      case CancelEnd(l) =>
        var idle := NotCancelling(l);
        b := !idle;
      case DrainBegin(l) =>
        var idle := NotCancelling(l);
        var e := DrainEmpty(l);
        b := idle && e;
      case CallDone(l) =>
        var idle := NotCancelling(l);
        var e := DrainEmpty(l);
        b := idle && !e;
    }

    method NotCancelling(l: LoopId) returns (b: bool)
      requires Linked() && l < |cancelling|
      ensures b == (now.loops[l].cancelling == None)
    {
      Open();
      DrainRead(Links(qs.items, qs.flags), Books(), now, l);
      b := cancelling[l] == None;
    }

    method May(a: Action) returns (b: bool)
      requires Valid()
      ensures b == Enabled(now, a)
    {
      if a.WorkerRun? || a.Publish? || a.SpuriousWakeup? { b := WorkerMay(a); } else { b := LoopMay(a); }
    }

    /** What the callbacks of loop l and the other threads do between two turns of `uv__work_done`: of the steps given,
        those that may happen then. A cancel that has begun is over before the callback returns. */
    method Between(l: LoopId, steps: seq<Action>, ghost start: State, ghost before: seq<Action>)
      returns (ghost acts: seq<Action>)
      requires Valid() && l < |now.loops| && now.loops[l].cancelling == None
      requires Legal(start, before) && now == After(start, before)
      modifies this, qs, qs.repr
      ensures Valid() && fresh(qs.repr - old(qs.repr)) && Legal(start, acts) && now == After(start, acts)
      ensures NoneLost(old(now), now, l) && now.loops[l].cancelling == None
    {
      ghost var s := now;
      acts := before;
      for i := 0 to |steps|
        invariant Valid() && fresh(qs.repr - old(qs.repr))
        invariant Legal(start, acts) && now == After(start, acts) && NoneLost(s, now, l)
      {
        ghost var t := now;
        acts := TryOther(l, steps[i], start, acts);
        NoneLostOn(s, t, now, l);
      }
      acts := FinishCancel(l, s, start, acts);
    }

    method FinishCancel(l: LoopId, ghost s: State, ghost start: State, ghost before: seq<Action>)
      returns (ghost acts: seq<Action>)
      requires Valid() && NoneLost(s, now, l) && Legal(start, before) && now == After(start, before)
      modifies this, qs, qs.repr
      ensures Valid() && fresh(qs.repr - old(qs.repr)) && Legal(start, acts) && now == After(start, acts)
      ensures NoneLost(s, now, l) && now.loops[l].cancelling == None
    {
      ghost var t := now;
      KeptNotStuck(t, l);
      acts := TryOther(l, CancelEnd(l), start, before);
      NoneLostOn(s, t, now, l);
    }

    /** A step of somebody else, if it may happen now. */
    method TryOther(l: LoopId, a: Action, ghost start: State, ghost before: seq<Action>) returns (ghost acts: seq<Action>)
      requires Valid() && l < |now.loops| && Legal(start, before) && now == After(start, before)
      modifies this, qs, qs.repr
      ensures Valid() && fresh(qs.repr - old(qs.repr)) && Legal(start, acts) && now == After(start, acts)
      ensures now == if Enabled(old(now), a) && !OfDrain(a, l) then Step(old(now), a) else old(now)
      ensures NoneLost(old(now), now, l)
    {
      acts := before;
      var may := May(a);
      if may && !OfDrain(a, l) {
        OthersLoseNone(now, a, l);
        Extend(start, before, a);
        acts := before + [a];
        Perform(a);
      }
    }

    /** One turn of the loop of `uv__work_done`, and what happens until the next. */
    method OneCall(l: LoopId, steps: seq<Action>, ghost start: State, ghost before: seq<Action>)
      returns (ghost acts: seq<Action>)
      requires Valid() && l < |now.loops| && now.loops[l].cancelling == None && now.loops[l].drain != []
      requires Legal(start, before) && now == After(start, before)
      modifies this, qs, qs.repr
      ensures Valid() && fresh(qs.repr - old(qs.repr)) && Legal(start, acts) && now == After(start, acts)
      ensures NoneLost(old(now), now, l) && now.loops[l].cancelling == None
      ensures |now.loops[l].drain| < |old(now).loops[l].drain|
      ensures Enabled(old(now), CallDone(l)) && (steps == [] ==> now == Step(old(now), CallDone(l)))
    {
      ghost var s := now;
      KeptNotStuck(s, l);
      CallLosesNone(s, l);
      Extend(start, before, CallDone(l));
      DoneNext(l);
      ghost var t := now;
      if steps == [] {
        acts := before + [CallDone(l)];
      } else {
        acts := Between(l, steps, start, before + [CallDone(l)]);
        NoneLostOn(s, t, now, l);
      }
    }

    /** `uv__work_done`, while its callbacks and the other threads do `others[i]` after the i-th call. */
    method WorkDone(l: LoopId, others: seq<seq<Action>>) returns (ghost acts: seq<Action>)
      requires Valid() && Enabled(now, DrainBegin(l))
      modifies this, qs, qs.repr
      ensures Valid() && fresh(qs.repr - old(qs.repr)) && Legal(old(now), acts) && now == After(old(now), acts)
      ensures l < |now.loops| && now.loops[l].drain == [] && now.loops[l].cancelling == None
      ensures forall id :: id in old(now).loops[l].wq ==> Finished(now, id) || id in now.loops[l].wq
      ensures others == [] ==> Called(old(now), now, l, |old(now).loops[l].wq|)
    {
      ghost var start := now;
      TakenOver(start, l);
      DrainSection(l);
      ghost var s := now;
      ghost var n;
      acts, n := CallAll(l, others, start, [DrainBegin(l)]);
      AllServed(s, now, l);
    }

    /** The loop of `uv__work_done`. */
    method CallAll(l: LoopId, others: seq<seq<Action>>, ghost start: State, ghost before: seq<Action>)
      returns (ghost acts: seq<Action>, ghost n: nat)
      requires Valid() && Legal(start, before) && now == After(start, before)
      requires Draining(start, now, now, l, 0, others == [])
      modifies this, qs, qs.repr
      ensures Valid() && fresh(qs.repr - old(qs.repr)) && Legal(start, acts) && now == After(start, acts)
      ensures Draining(start, old(now), now, l, n, others == []) && now.loops[l].drain == []
    {
      ghost var s := now;
      acts := before;
      var k := 0;
      var e := DrainEmpty(l);
      while !e
        invariant Valid() && fresh(qs.repr - old(qs.repr)) && Legal(start, acts) && now == After(start, acts)
        invariant Draining(start, s, now, l, k, others == []) && e == (now.loops[l].drain == [])
        decreases |now.loops[l].drain|
      {
        acts := NextTurn(l, if k < |others| then others[k] else [], start, acts, s, k, others == []);
        k := k + 1;
        e := DrainEmpty(l);
      }
      n := k;
    }

    method NextTurn(l: LoopId, steps: seq<Action>, ghost start: State, ghost before: seq<Action>,
                    ghost s: State, ghost n: nat, ghost quiet: bool)
      returns (ghost acts: seq<Action>)
      requires Valid() && Legal(start, before) && now == After(start, before)
      requires Draining(start, s, now, l, n, quiet) && now.loops[l].drain != [] && (quiet ==> steps == [])
      modifies this, qs, qs.repr
      ensures Valid() && fresh(qs.repr - old(qs.repr)) && Legal(start, acts) && now == After(start, acts)
      ensures Draining(start, s, now, l, n + 1, quiet) && |now.loops[l].drain| < |old(now).loops[l].drain|
    {
      ghost var t := now;
      acts := OneCall(l, steps, start, before);
      DrainingOn(start, s, t, now, l, n, quiet);
    }
  }

  ghost function WithWork(s: State, id: ReqId, fn: WorkFn): State
    requires id in s.reqs
  {
    s.(reqs := s.reqs[id := s.reqs[id].(work := fn)])
  }

  /** A request's node linked at the tail of a loop's queue. */
  ghost function AtLoop(s: State, l: LoopId, id: ReqId): State
    requires id in s.reqs && l < |s.loops|
  {
    s.(loops := s.loops[l := s.loops[l].(wq := s.loops[l].wq + [id])],
       reqs := s.reqs[id := s.reqs[id].(selfLinked := false)])
  }

  /** A request's node linked at the tail of `wq` or of the slow queue. */
  ghost function AtTail(s: State, k: nat, id: ReqId): State
    requires id in s.reqs
  {
    var t := s.(reqs := s.reqs[id := s.reqs[id].(selfLinked := false)]);
    if k == WORK_QUEUE then t.(wq := t.wq + [Work(id)]) else t.(slowPending := t.slowPending + [id])
  }

  lemma {:induction false} SubmitParts(s: State, l: LoopId, id: ReqId, slow: bool, wake: nat)
    requires Enabled(s, Submit(l, id, slow, wake))
    ensures var r := s.(reqs := s.reqs[id := Request(l, Callback, true)]);
      var t := AtTail(r, if slow then SLOW_QUEUE else WORK_QUEUE, id);
      Step(s, Submit(l, id, slow, wake)) ==
        if !slow then Signal(t, wake)
        else if t.markerSelfLinked then Signal(t.(wq := t.wq + [RunSlow], markerSelfLinked := false), wake) else t
  {
    var r := s.(reqs := s.reqs[id := Request(l, Callback, true)]);
    var t := AtTail(r, if slow then SLOW_QUEUE else WORK_QUEUE, id);
    assert t.reqs == s.reqs[id := Request(l, Callback, false)];
  }

  ghost function NowCancelling(s: State, l: LoopId, c: Option<ReqId>): State
    requires l < |s.loops|
  {
    s.(loops := s.loops[l := s.loops[l].(cancelling := c)])
  }

  lemma {:induction false} PublishedParts(s: State, w: nat)
    requires Enabled(s, Publish(w))
    ensures var id := s.workers[w].id;
      Step(s, Publish(w)) == SetPhase(AtLoop(WithWork(s, id, Null), s.reqs[id].loop, id), w, Returning(s.workers[w].slow))
  {
    var id := s.workers[w].id;
    assert AtLoop(WithWork(s, id, Null), s.reqs[id].loop, id).reqs == s.reqs[id := s.reqs[id].(work := Null, selfLinked := false)];
  }

  lemma {:induction false} CancelledParts(s: State, l: LoopId)
    requires Enabled(s, CancelEnd(l))
    ensures var id := s.loops[l].cancelling.value;
      Step(s, CancelEnd(l)) == NowCancelling(AtLoop(WithWork(s, id, Cancelled), l, id), l, None)
                                 .(cancelReturnedZero := s.cancelReturnedZero + {id})
  {
    var id := s.loops[l].cancelling.value;
    var t := NowCancelling(AtLoop(WithWork(s, id, Cancelled), l, id), l, None);
    assert t.reqs == s.reqs[id := s.reqs[id].(work := Cancelled, selfLinked := false)];
    assert t.loops == s.loops[l := s.loops[l].(wq := s.loops[l].wq + [id], cancelling := None)];
  }

  /** The rest of `TakeSlow`, once the marker is off the queue. */
  ghost function AfterMarker(s: State, w: nat, wake: nat): State
    requires w < |s.workers| && s.slowPending != []
  {
    StartWork(PutBack(OneSlow(s), wake), w, s.slowPending[0], true)
  }

  ghost function OneSlow(s: State): State
    requires s.slowPending != []
  {
    SelfLink(s.(slowRunning := s.slowRunning + 1, slowPending := s.slowPending[1..]), s.slowPending[0])
  }

  lemma {:induction false} SlowParts(s: State, w: nat, wake: nat)
    requires w < |s.workers| && s.wq != [] && s.wq[0] == RunSlow && s.slowPending != []
    ensures AfterMarker(s.(wq := s.wq[1..], markerSelfLinked := true), w, wake) == TakeSlow(s, w, wake)
  {
  }

  ghost function Topper(w: nat, wake: nat): State -> State {
    (s: State) => if w < |s.workers| && MarkerOnce(s) then WorkerTop(s, w, wake) else s
  }

  /** One turn of the worker's loop. */
  ghost predicate TopAt(top: State -> State, w: nat, wake: nat, s: State) {
    w < |s.workers| && MarkerOnce(s) ==>
      top(s) ==
        if MustWait(s) then SetPhase(s.(idleThreads := s.idleThreads + 1), w, Asleep)
        else if s.wq[0].Work? then TakeWork(s, w)
        else if s.slowRunning >= Threshold(s) then top(s.(wq := s.wq[1..] + [RunSlow], markerSelfLinked := false))
        else if s.slowPending == [] then top(s.(wq := s.wq[1..], markerSelfLinked := true))
        else TakeSlow(s, w, wake)
  }

  /** Without its marker at the head, or with it at the tail behind something else, the queue starts with work. */
  lemma {:induction false} WorkFirst(s: State)
    requires MarkerOnce(s) && s.wq != [] && s.wq[0] == RunSlow && !MustWait(s)
    ensures MarkerOnce(s.(wq := s.wq[1..])) && MarkerOnce(s.(wq := s.wq[1..] + [RunSlow]))
    ensures s.wq[1..] == [] || s.wq[1..][0] != RunSlow
    ensures s.slowRunning >= Threshold(s) ==> (s.wq[1..] + [RunSlow])[0] != RunSlow
  {
    MarkerTail(s);
    if |s.wq| > 1 { assert s.wq[1..][0] == s.wq[1]; }
  }

  lemma {:induction false} TopperTurns(w: nat, wake: nat, s: State)
    ensures TopAt(Topper(w, wake), w, wake, s)
  {
    if w < |s.workers| && MarkerOnce(s) && s.wq != [] {
      MarkerTail(s);
      if !MustWait(s) && s.wq[0] == RunSlow && s.slowRunning >= Threshold(s) {
        assert s.wq[1..][0] == s.wq[1];
      }
    }
  }

  /** QUEUE_INIT of so many nodes. */
  method InitQueues(n: nat) returns (heads: seq<Node>)
    ensures |heads| == n && (forall i, j :: 0 <= i < j < n ==> heads[i] != heads[j])
    ensures forall k :: 0 <= k < n ==> fresh(heads[k]) && heads[k].next == heads[k] && heads[k].prev == heads[k]
  {
    heads := [];
    for k := 0 to n
      invariant |heads| == k && (forall i, j :: 0 <= i < j < k ==> heads[i] != heads[j])
      invariant forall i :: 0 <= i < k ==> fresh(heads[i]) && heads[i].next == heads[i] && heads[i].prev == heads[i]
    {
      var h := new Node();
      heads := heads + [h];
    }
  }

  lemma {:induction false} StartState(ln: Links, b: Book, nthreads: nat, nloops: nat)
    requires b.node == map[] && b.info == map[] && b.owner == map[] && b.idleThreads == 0 && b.slowRunning == 0
    requires b.workers == seq(nthreads, _ => Starting) && b.cancelling == seq(nloops, _ => None) && b.done == []
    requires b.ran == {} && b.cancelReturnedZero == {} && b.marker in ln.flags && ln.flags[b.marker]
    requires |ln.items| == 2 + 2 * nloops && forall k :: 0 <= k < |ln.items| ==> ln.items[k] == []
    ensures Reads(ln, b, ThreadPool.Init(nthreads, nloops))
  {
    assert Items(b.marker, b.owner, []) == [] && Ids(b.owner, []) == [];
  }
}
