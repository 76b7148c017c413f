/** The libuv thread pool as a transition system: one step per critical section, so in every state between two
    steps the global mutex is free. Who runs next, and which sleeper a signal wakes, is up to the schedule. */
module ThreadPool {
  import opened Wrappers
  import opened SeqFacts

  type ReqId = nat
  type LoopId = nat

  /** What is linked in `wq`: a request, or the marker that stands for pending slow work. */
  datatype Item = Work(id: ReqId) | RunSlow

  datatype Phase =
    | Starting                          // about to take the global mutex
    | Asleep                            // in uv_cond_wait, not signalled
    | Woken                             // signalled, still to take the global mutex again
    | Running(id: ReqId, slow: bool)    // runs the request, holding no mutex
    | Returning(slow: bool)             // has published it, still to take the global mutex

  /** The `work` pointer of a request. */
  datatype WorkFn = Null | Callback | Cancelled

  datatype Status = Success | ECanceled

  /** `selfLinked` is QUEUE_EMPTY of the request's own queue node. */
  datatype Request = Request(loop: LoopId, work: WorkFn, selfLinked: bool)

  /** A loop's queue of finished work, the local queue of a running `uv__work_done`, and the request its thread is
      in the middle of cancelling. */
  datatype Loop = Loop(wq: seq<ReqId>, drain: seq<ReqId>, cancelling: Option<ReqId>)

  datatype State = State(
    wq: seq<Item>,
    slowPending: seq<ReqId>,
    markerSelfLinked: bool,
    idleThreads: int,
    slowRunning: int,
    workers: seq<Phase>,
    reqs: map<ReqId, Request>,
    loops: seq<Loop>,
    // history
    ran: set<ReqId>,
    cancelReturnedZero: set<ReqId>,
    done: seq<(ReqId, Status)>)

  function Threshold(s: State): nat { (|s.workers| + 1) / 2 }

  /** The condition under which a worker keeps waiting. */
  predicate MustWait(s: State) {
    || s.wq == []
    || (s.wq[0] == RunSlow && |s.wq| == 1 && s.slowRunning >= Threshold(s))
  }

  function SetPhase(s: State, w: nat, ph: Phase): State
    requires w < |s.workers|
  {
    s.(workers := s.workers[w := ph])
  }

  function SelfLink(s: State, id: ReqId): State {
    if id in s.reqs then s.(reqs := s.reqs[id := s.reqs[id].(selfLinked := true)]) else s
  }

  /** uv_cond_signal, sent only when `idle_threads` is positive. */
  function Signal(s: State, wake: nat): State {
    if s.idleThreads > 0 && wake < |s.workers| && s.workers[wake] == Asleep then SetPhase(s, wake, Woken) else s
  }

  /** A signal wakes a sleeper if there is one. */
  predicate GoodWake(s: State, wake: nat) {
    (exists w :: 0 <= w < |s.workers| && s.workers[w] == Asleep) ==> wake < |s.workers| && s.workers[wake] == Asleep
  }

  /** The marker is linked at most once. */
  predicate Once(q: seq<Item>) { forall i, j :: 0 <= i < j < |q| && q[i] == RunSlow ==> q[j] != RunSlow }

  predicate MarkerOnce(s: State) { Once(s.wq) }

  /** A worker unlocks the mutex with a request in hand. */
  function StartWork(s: State, w: nat, id: ReqId, slow: bool): State
    requires w < |s.workers|
  {
    SetPhase(s.(ran := s.ran + {id}), w, Running(id, slow))
  }

  /** A worker takes the request at the head of `wq`. */
  function TakeWork(s: State, w: nat): State
    requires w < |s.workers| && s.wq != [] && s.wq[0].Work?
  {
    var id := s.wq[0].id;
    StartWork(SelfLink(s.(wq := s.wq[1..]), id), w, id, false)
  }

  /** The marker and the first slow request come off their queues. */
  function BeginSlow(s: State): State
    requires s.wq != [] && s.slowPending != []
  {
    SelfLink(s.(wq := s.wq[1..], markerSelfLinked := true, slowRunning := s.slowRunning + 1,
                slowPending := s.slowPending[1..]), s.slowPending[0])
  }

  /** The marker goes back if there is more slow work. */
  function PutBack(s: State, wake: nat): State {
    if s.slowPending == [] then s else Signal(s.(wq := s.wq + [RunSlow], markerSelfLinked := false), wake)
  }

  /** A worker takes the first slow request, and puts the marker back if there are more. */
  function TakeSlow(s: State, w: nat, wake: nat): State
    requires w < |s.workers| && s.wq != [] && s.wq[0] == RunSlow && s.slowPending != []
  {
    StartWork(PutBack(BeginSlow(s), wake), w, s.slowPending[0], true)
  }

  /** A worker's critical section from the top of its loop, with the mutex held, up to sleeping or unlocking. */
  function WorkerTop(s: State, w: nat, wake: nat): State
    requires w < |s.workers| && MarkerOnce(s)
    decreases if s.wq != [] && s.wq[0] == RunSlow then 1 else 0
  {
    if MustWait(s) then
      SetPhase(s.(idleThreads := s.idleThreads + 1), w, Asleep)
    else
      var q, rest := s.wq[0], s.wq[1..];
      match q
      case Work(id) =>
        TakeWork(s, w)
      case RunSlow =>
        if s.slowRunning >= Threshold(s) then
          assert rest != [] && rest[0] == s.wq[1];
          WorkerTop(s.(wq := rest + [RunSlow], markerSelfLinked := false), w, wake)
        else if s.slowPending == [] then
          assert forall i :: 0 <= i < |rest| ==> rest[i] == s.wq[i + 1];
          WorkerTop(s.(wq := rest, markerSelfLinked := true), w, wake)
        else
          TakeSlow(s, w, wake)
  }

  /** Bookkeeping of a worker that has just taken the global mutex. */
  function TakeMutex(s: State, w: nat): State
    requires w < |s.workers|
  {
    match s.workers[w]
    case Woken => SetPhase(s.(idleThreads := s.idleThreads - 1), w, Starting)
    case Returning(slow) => SetPhase(s.(slowRunning := s.slowRunning - (if slow then 1 else 0)), w, Starting)
    case _ => SetPhase(s, w, Starting)
  }

  /** `post`, with the mutex held. */
  function Post(s: State, id: ReqId, slow: bool, wake: nat): State {
    var s1 := if slow then s.(slowPending := s.slowPending + [id]) else s;
    if slow && !s.markerSelfLinked then s1
    else if slow then Signal(s1.(wq := s1.wq + [RunSlow], markerSelfLinked := false), wake)
    else Signal(s1.(wq := s1.wq + [Work(id)]), wake)
  }

  /** QUEUE_REMOVE of a request's node, whatever queue it is linked in. */
  function Unlink(s: State, l: LoopId, id: ReqId): State
    requires l < |s.loops|
  {
    var lp := s.loops[l];
    s.(wq := Without(s.wq, Work(id)), slowPending := Without(s.slowPending, id),
       loops := s.loops[l := lp.(wq := Without(lp.wq, id), drain := Without(lp.drain, id))])
  }

  /** What the first critical section of `uv__work_cancel` tests. */
  predicate Cancellable(s: State, id: ReqId) {
    id in s.reqs && !s.reqs[id].selfLinked && s.reqs[id].work != Null
  }

  datatype Action =
    | Submit(l: LoopId, id: ReqId, slow: bool, wake: nat)
    | WorkerRun(w: nat, wake: nat)
    | Publish(w: nat)
    | SpuriousWakeup(w: nat)
    | CancelBegin(l: LoopId, id: ReqId)
    | CancelEnd(l: LoopId)
    | DrainBegin(l: LoopId)
    | CallDone(l: LoopId)

  predicate Finished(s: State, id: ReqId) { exists i :: 0 <= i < |s.done| && s.done[i].0 == id }

  /** When an action may happen. A loop thread does one thing at a time; cancel is called by the loop thread of the
      request, before `done` begins. */
  predicate Enabled(s: State, a: Action) {
    match a
    case Submit(l, id, _, wake) => l < |s.loops| && id !in s.reqs && GoodWake(s, wake)
    case WorkerRun(w, wake) =>
      w < |s.workers| && (s.workers[w].Starting? || s.workers[w].Woken? || s.workers[w].Returning?)
      && MarkerOnce(s) && GoodWake(s, wake)
    case Publish(w) =>
      w < |s.workers| && s.workers[w].Running? && s.workers[w].id in s.reqs
      && s.reqs[s.workers[w].id].loop < |s.loops|
    case SpuriousWakeup(w) => w < |s.workers| && s.workers[w].Asleep?
    case CancelBegin(l, id) =>
      l < |s.loops| && s.loops[l].cancelling == None && id in s.reqs && s.reqs[id].loop == l && !Finished(s, id)
    case CancelEnd(l) => l < |s.loops| && s.loops[l].cancelling.Some? && s.loops[l].cancelling.value in s.reqs
    case DrainBegin(l) => l < |s.loops| && s.loops[l].cancelling == None && s.loops[l].drain == []
    case CallDone(l) =>
      l < |s.loops| && s.loops[l].cancelling == None && s.loops[l].drain != [] && s.loops[l].drain[0] in s.reqs
  }

  function Step(s: State, a: Action): State
    requires Enabled(s, a)
  {
    match a
    case Submit(l, id, slow, wake) =>
      Post(s.(reqs := s.reqs[id := Request(l, Callback, false)]), id, slow, wake)
    case WorkerRun(w, wake) => WorkerTop(TakeMutex(s, w), w, wake)
    case Publish(w) =>
      var id := s.workers[w].id;
      var r := s.reqs[id];
      var lp := s.loops[r.loop];
      SetPhase(s.(reqs := s.reqs[id := r.(work := Null, selfLinked := false)],
                  loops := s.loops[r.loop := lp.(wq := lp.wq + [id])]),
               w, Returning(s.workers[w].slow))
    case SpuriousWakeup(w) => SetPhase(s, w, Woken)
    case CancelBegin(l, id) =>
      if !Cancellable(s, id) then s else
        var s1 := Unlink(s, l, id);
        s1.(loops := s1.loops[l := s1.loops[l].(cancelling := Some(id))])
    case CancelEnd(l) =>
      var lp := s.loops[l];
      var id := lp.cancelling.value;
      s.(reqs := s.reqs[id := s.reqs[id].(work := Cancelled, selfLinked := false)],
         loops := s.loops[l := lp.(wq := lp.wq + [id], cancelling := None)],
         cancelReturnedZero := s.cancelReturnedZero + {id})
    case DrainBegin(l) =>
      s.(loops := s.loops[l := s.loops[l].(wq := [], drain := s.loops[l].wq)])
    case CallDone(l) =>
      var lp := s.loops[l];
      var id := lp.drain[0];
      s.(loops := s.loops[l := lp.(drain := lp.drain[1..])],
         done := s.done + [(id, if s.reqs[id].work == Cancelled then ECanceled else Success)])
  }

  /** The pool after `init_threads`, with the given number of workers and event loops. */
  function Init(nthreads: nat, nloops: nat): State {
    State([], [], true, 0, 0, seq(nthreads, _ => Starting), map[], seq(nloops, _ => Loop([], [], None)), {}, {}, [])
  }

  predicate Legal(s: State, acts: seq<Action>)
    decreases |acts|
  {
    acts == [] || (Enabled(s, acts[0]) && Legal(Step(s, acts[0]), acts[1..]))
  }

  function After(s: State, acts: seq<Action>): State
    requires Legal(s, acts)
    decreases |acts|
  {
    if acts == [] then s else After(Step(s, acts[0]), acts[1..])
  }

  // ---- Workers, counters and wakeups ----

  const ASLEEP := (ph: Phase) => ph.Asleep?
  const WOKEN := (ph: Phase) => ph.Woken?
  const HOLDS_SLOW := (ph: Phase) => (ph.Running? || ph.Returning?) && ph.slow

  /** How many items of `wq` a worker could take right now. */
  function Runnable(s: State): int {
    |s.wq| - (if RunSlow in s.wq && s.slowRunning >= Threshold(s) then 1 else 0)
  }

  /** Holds whenever the global mutex is free. */
  ghost predicate InSync(s: State, slack: nat) {
    && MarkerOnce(s)
    && (RunSlow in s.wq <==> !s.markerSelfLinked)
    && (s.slowPending != [] ==> RunSlow in s.wq)
    && s.idleThreads == Count(s.workers, ASLEEP) + Count(s.workers, WOKEN)
    && s.slowRunning == Count(s.workers, HOLDS_SLOW) <= Threshold(s)
    && (Count(s.workers, ASLEEP) > 0 ==> Runnable(s) <= Count(s.workers, WOKEN) + slack)
  }

  lemma CountPhase(s: State, w: nat, ph: Phase)
    requires w < |s.workers|
    ensures var t := SetPhase(s, w, ph);
      && Count(t.workers, ASLEEP) == Count(s.workers, ASLEEP) - (if s.workers[w].Asleep? then 1 else 0) + (if ph.Asleep? then 1 else 0)
      && Count(t.workers, WOKEN) == Count(s.workers, WOKEN) - (if s.workers[w].Woken? then 1 else 0) + (if ph.Woken? then 1 else 0)
      && Count(t.workers, HOLDS_SLOW) == Count(s.workers, HOLDS_SLOW)
           - (if HOLDS_SLOW(s.workers[w]) then 1 else 0) + (if HOLDS_SLOW(ph) then 1 else 0)
  {
    CountUpdate(s.workers, ASLEEP, w, ph);
    CountUpdate(s.workers, WOKEN, w, ph);
    CountUpdate(s.workers, HOLDS_SLOW, w, ph);
  }

  lemma SignalCounts(s: State, wake: nat)
    requires GoodWake(s, wake) && s.idleThreads == Count(s.workers, ASLEEP) + Count(s.workers, WOKEN)
    ensures var t := Signal(s, wake);
      && t == s.(workers := t.workers) && |t.workers| == |s.workers|
      && Count(t.workers, HOLDS_SLOW) == Count(s.workers, HOLDS_SLOW)
      && Count(t.workers, ASLEEP) + Count(t.workers, WOKEN) == Count(s.workers, ASLEEP) + Count(s.workers, WOKEN)
      && (Count(s.workers, ASLEEP) > 0 ==> Count(t.workers, WOKEN) == Count(s.workers, WOKEN) + 1)
      && (Count(s.workers, ASLEEP) == 0 ==> t == s)
  {
    CountSome(s.workers, ASLEEP);
    if exists i :: 0 <= i < |s.workers| && ASLEEP(s.workers[i]) {
      CountPhase(s, wake, Woken);
    }
  }

  /** Adding one item and signalling keeps the sleepers covered. */
  lemma SignalCovers(s: State, s1: State, wake: nat, slack: nat)
    requires GoodWake(s1, wake)
    requires InSync(s, slack)
    requires s1.workers == s.workers && s1.idleThreads == s.idleThreads && s1.slowRunning == s.slowRunning
    requires MarkerOnce(s1) && (RunSlow in s1.wq <==> !s1.markerSelfLinked) && (s1.slowPending != [] ==> RunSlow in s1.wq)
    requires Runnable(s1) <= Runnable(s) + 1
    ensures InSync(Signal(s1, wake), slack)
  {
    SignalCounts(s1, wake);
  }

  lemma MarkerTail(s: State)
    requires MarkerOnce(s) && s.wq != []
    ensures Once(s.wq[1..])
    ensures s.wq[0] == RunSlow ==> RunSlow !in s.wq[1..]
    ensures s.wq[0] != RunSlow ==> (RunSlow in s.wq <==> RunSlow in s.wq[1..])
  {
    var rest := s.wq[1..];
    assert forall i :: 0 <= i < |rest| ==> rest[i] == s.wq[i + 1];
    assert s.wq == [s.wq[0]] + rest;
  }

  /** From the top of its loop, one waking (or arriving) worker restores the balance it stood for. */
  lemma TopInSync(s: State, w: nat, wake: nat)
    requires w < |s.workers| && s.workers[w] == Starting
    requires InSync(s, 1) && GoodWake(s, wake)
    ensures InSync(WorkerTop(s, w, wake), 0)
    decreases if s.wq != [] && s.wq[0] == RunSlow then 1 else 0
  {
    if MustWait(s) {
      CountPhase(s, w, Asleep);
    } else {
      MarkerTail(s);
      var rest := s.wq[1..];
      match s.wq[0]
      case Work(id) => TopTakesWork(s, w, wake);
      case RunSlow =>
        if s.slowRunning >= Threshold(s) {
          var t := s.(wq := rest + [RunSlow], markerSelfLinked := false);
          assert rest[0] == s.wq[1];
          TopInSync(t, w, wake);
        } else if s.slowPending == [] {
          TopInSync(s.(wq := rest, markerSelfLinked := true), w, wake);
        } else {
          TopTakesSlow(s, w, wake);
        }
    }
  }

  lemma TopTakesWork(s: State, w: nat, wake: nat)
    requires w < |s.workers| && s.workers[w] == Starting
    requires InSync(s, 1) && !MustWait(s) && s.wq[0].Work?
    ensures InSync(WorkerTop(s, w, wake), 0)
  {
    MarkerTail(s);
    CountPhase(s, w, Running(s.wq[0].id, false));
  }

  /** The parts of a state the balance of workers and queued work depends on. */
  predicate SameSync(s: State, t: State) {
    && s.wq == t.wq && s.slowPending == t.slowPending && s.markerSelfLinked == t.markerSelfLinked
    && s.idleThreads == t.idleThreads && s.slowRunning == t.slowRunning && s.workers == t.workers
  }

  /** The state right after a worker took one slow request and before it looks for more. */
  function TookSlow(s: State, w: nat): State
    requires w < |s.workers| && s.wq != [] && s.slowPending != []
  {
    SetPhase(s, w, Running(s.slowPending[0], true)).(wq := s.wq[1..], markerSelfLinked := true,
      slowRunning := s.slowRunning + 1, slowPending := [])
  }

  lemma TookSlowInSync(s: State, w: nat)
    requires w < |s.workers| && s.workers[w] == Starting
    requires InSync(s, 1) && s.wq != [] && s.wq[0] == RunSlow
    requires s.slowRunning < Threshold(s) && s.slowPending != []
    ensures InSync(TookSlow(s, w), 0) && RunSlow !in TookSlow(s, w).wq
  {
    MarkerTail(s);
    CountPhase(s, w, Running(s.slowPending[0], true));
  }

  lemma TopTakesSlow(s: State, w: nat, wake: nat)
    requires w < |s.workers| && s.workers[w] == Starting
    requires InSync(s, 1) && GoodWake(s, wake) && s.wq != [] && s.wq[0] == RunSlow
    requires s.slowRunning < Threshold(s) && s.slowPending != []
    ensures InSync(WorkerTop(s, w, wake), 0)
  {
    var took, t := TookSlow(s, w), WorkerTop(s, w, wake);
    TookSlowInSync(s, w);
    if s.slowPending[1..] == [] {
      StaysInSync(took, t, 0);
    } else {
      var again := took.(wq := took.wq + [RunSlow], markerSelfLinked := false, slowPending := s.slowPending[1..]);
      AgainInSync(s, w, wake, took, again);
      SlowAgain(s, w, wake, again);
      StaysInSync(Signal(again, wake), t, 0);
    }
  }

  lemma StaysInSync(s: State, t: State, slack: nat)
    requires SameSync(s, t) && InSync(s, slack)
    ensures InSync(t, slack)
  {
  }

  lemma AgainInSync(s: State, w: nat, wake: nat, took: State, again: State)
    requires w < |s.workers| && s.workers[w] == Starting && GoodWake(s, wake) && s.wq != [] && s.slowPending != []
    requires took == TookSlow(s, w) && InSync(took, 0) && RunSlow !in took.wq
    requires again == took.(wq := took.wq + [RunSlow], markerSelfLinked := false, slowPending := s.slowPending[1..])
    ensures InSync(Signal(again, wake), 0)
  {
    SleepersKept(s, w, Running(s.slowPending[0], true), wake);
    SignalCovers(took, again, wake, 0);
  }

  lemma SlowAgain(s: State, w: nat, wake: nat, again: State)
    requires w < |s.workers| && s.workers[w] == Starting && MarkerOnce(s) && s.wq != [] && s.wq[0] == RunSlow
    requires s.slowRunning < Threshold(s) && |s.slowPending| > 1
    requires var took := TookSlow(s, w);
      again == took.(wq := took.wq + [RunSlow], markerSelfLinked := false, slowPending := s.slowPending[1..])
    ensures SameSync(Signal(again, wake), WorkerTop(s, w, wake))
  {
  }

  lemma SleepersKept(s: State, w: nat, ph: Phase, wake: nat)
    requires w < |s.workers| && s.workers[w] != Asleep && ph != Asleep && GoodWake(s, wake)
    ensures GoodWake(SetPhase(s, w, ph), wake)
  {
    var t := SetPhase(s, w, ph);
    if v :| 0 <= v < |t.workers| && t.workers[v] == Asleep {
      assert s.workers[v] == Asleep;
    }
  }

  lemma TakeMutexInSync(s: State, w: nat)
    requires w < |s.workers| && InSync(s, 0)
    requires s.workers[w].Starting? || s.workers[w].Woken? || s.workers[w].Returning?
    ensures InSync(TakeMutex(s, w), 1)
  {
    CountPhase(s, w, Starting);
  }

  lemma PostInSync(s: State, id: ReqId, slow: bool, wake: nat)
    requires InSync(s, 0) && GoodWake(s, wake)
    ensures InSync(Post(s, id, slow, wake), 0)
  {
    if slow && s.markerSelfLinked {
      SignalCovers(s, s.(slowPending := s.slowPending + [id], wq := s.wq + [RunSlow], markerSelfLinked := false), wake, 0);
    } else if !slow {
      SignalCovers(s, s.(wq := s.wq + [Work(id)]), wake, 0);
    }
  }

  lemma {:induction false} WithoutWork(q: seq<Item>, id: ReqId)
    requires Once(q)
    ensures Once(Without(q, Work(id)))
  {
    if q != [] {
      assert q == [q[0]] + q[1..];
      WithoutWork(q[1..], id);
      assert q[0] == RunSlow ==> RunSlow !in q[1..];
      var rest := Without(q[1..], Work(id));
      assert Once([q[0]] + rest);
    }
  }

  lemma WorkerRunInSync(s: State, w: nat, wake: nat)
    requires InSync(s, 0) && Enabled(s, WorkerRun(w, wake))
    ensures InSync(Step(s, WorkerRun(w, wake)), 0)
  {
    TakeMutexInSync(s, w);
    SleepersKept(s, w, Starting, wake);
    TopInSync(TakeMutex(s, w), w, wake);
  }

  lemma PhaseChangeInSync(s: State, w: nat, ph: Phase)
    requires InSync(s, 0) && w < |s.workers|
    requires (s.workers[w].Running? && ph == Returning(s.workers[w].slow)) || (s.workers[w].Asleep? && ph == Woken)
    ensures InSync(SetPhase(s, w, ph), 0)
  {
    CountPhase(s, w, ph);
  }

  lemma UnlinkInSync(s: State, l: LoopId, id: ReqId)
    requires InSync(s, 0) && l < |s.loops|
    ensures InSync(Unlink(s, l, id), 0)
  {
    WithoutWork(s.wq, id);
  }

  /** Steps that touch neither `wq` nor any worker. */
  lemma LoopStepInSync(s: State, a: Action)
    requires InSync(s, 0) && Enabled(s, a) && (a.CancelEnd? || a.DrainBegin? || a.CallDone?)
    ensures InSync(Step(s, a), 0)
  {
    assert SameSync(s, Step(s, a));
  }

  lemma CancelInSync(s: State, l: LoopId, id: ReqId)
    requires InSync(s, 0) && Enabled(s, CancelBegin(l, id))
    ensures InSync(Step(s, CancelBegin(l, id)), 0)
  {
    var t := Step(s, CancelBegin(l, id));
    if Cancellable(s, id) {
      UnlinkInSync(s, l, id);
      assert SameSync(Unlink(s, l, id), t);
    }
  }

  lemma PublishInSync(s: State, w: nat)
    requires InSync(s, 0) && Enabled(s, Publish(w))
    ensures InSync(Step(s, Publish(w)), 0)
  {
    PhaseChangeInSync(s, w, Returning(s.workers[w].slow));
    assert SameSync(SetPhase(s, w, Returning(s.workers[w].slow)), Step(s, Publish(w)));
  }

  lemma SubmitInSync(s: State, l: LoopId, id: ReqId, slow: bool, wake: nat)
    requires InSync(s, 0) && Enabled(s, Submit(l, id, slow, wake))
    ensures InSync(Step(s, Submit(l, id, slow, wake)), 0)
  {
    PostInSync(s.(reqs := s.reqs[id := Request(l, Callback, false)]), id, slow, wake);
  }

  /** Every step of the protocol keeps the balance of workers, wakeups and queued work. */
  lemma StepInSync(s: State, a: Action)
    requires InSync(s, 0) && Enabled(s, a)
    ensures InSync(Step(s, a), 0)
  {
    match a
    case Submit(l, id, slow, wake) => SubmitInSync(s, l, id, slow, wake);
    case WorkerRun(w, wake) => WorkerRunInSync(s, w, wake);
    case Publish(w) => PublishInSync(s, w);
    case SpuriousWakeup(w) => PhaseChangeInSync(s, w, Woken);
    case CancelBegin(l, id) => CancelInSync(s, l, id);
    case _ => LoopStepInSync(s, a);
  }

  lemma InitInSync(nthreads: nat, nloops: nat)
    ensures InSync(Init(nthreads, nloops), 0)
  {
    var ws := Init(nthreads, nloops).workers;
    CountSome(ws, ASLEEP);
    CountSome(ws, WOKEN);
    CountSome(ws, HOLDS_SLOW);
  }

  lemma {:induction false} RunInSync(s: State, acts: seq<Action>)
    requires InSync(s, 0) && Legal(s, acts)
    ensures InSync(After(s, acts), 0) && |After(s, acts).workers| == |s.workers|
    decreases |acts|
  {
    if acts != [] {
      StepInSync(s, acts[0]);
      StepKeepsWorkers(s, acts[0]);
      RunInSync(Step(s, acts[0]), acts[1..]);
    }
  }

  lemma TopKeepsWorkers(s: State, w: nat, wake: nat)
    requires w < |s.workers| && MarkerOnce(s)
    ensures |WorkerTop(s, w, wake).workers| == |s.workers|
    decreases if s.wq != [] && s.wq[0] == RunSlow then 1 else 0
  {
    if !MustWait(s) && s.wq[0] == RunSlow {
      MarkerTail(s);
      var rest := s.wq[1..];
      if s.slowRunning >= Threshold(s) {
        assert rest[0] == s.wq[1];
        TopKeepsWorkers(s.(wq := rest + [RunSlow], markerSelfLinked := false), w, wake);
      } else if s.slowPending == [] {
        TopKeepsWorkers(s.(wq := rest, markerSelfLinked := true), w, wake);
      }
    }
  }

  lemma StepKeepsWorkers(s: State, a: Action)
    requires Enabled(s, a)
    ensures |Step(s, a).workers| == |s.workers|
  {
    if a.WorkerRun? { TopKeepsWorkers(TakeMutex(s, a.w), a.w, a.wake); }
  }

  /** No wakeup is lost: whenever the mutex is free and some worker sleeps unsignalled, every item that could be
      run is covered by a worker already on its way. In particular workers are never all asleep over runnable work. */
  lemma NoLostWakeup(nthreads: nat, nloops: nat, acts: seq<Action>)
    requires nthreads > 0 && Legal(Init(nthreads, nloops), acts)
    ensures var s := After(Init(nthreads, nloops), acts);
      && (Count(s.workers, ASLEEP) > 0 ==> Runnable(s) <= Count(s.workers, WOKEN))
      && ((forall w :: 0 <= w < |s.workers| ==> s.workers[w] == Asleep) ==> MustWait(s))
  {
    InitInSync(nthreads, nloops);
    RunInSync(Init(nthreads, nloops), acts);
    var s := After(Init(nthreads, nloops), acts);
    if forall w :: 0 <= w < |s.workers| ==> s.workers[w] == Asleep {
      CountAll(s.workers, ASLEEP);
      CountSome(s.workers, WOKEN);
      assert Runnable(s) <= 0;
    }
  }

  /** Slow work is never stranded and never exceeds its share of the pool. */
  lemma SlowWorkSafe(nthreads: nat, nloops: nat, acts: seq<Action>)
    requires Legal(Init(nthreads, nloops), acts)
    ensures var s := After(Init(nthreads, nloops), acts);
      && (s.slowPending != [] ==> RunSlow in s.wq)
      && Once(s.wq)
      && (s.markerSelfLinked <==> RunSlow !in s.wq)
      && s.slowRunning == Count(s.workers, HOLDS_SLOW) <= (nthreads + 1) / 2
  {
    InitInSync(nthreads, nloops);
    RunInSync(Init(nthreads, nloops), acts);
  }
}
