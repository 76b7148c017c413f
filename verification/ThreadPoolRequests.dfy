/** What happens to each request given to the thread pool: it is never lost, never duplicated, and finishes once,
    cancelled exactly when a cancel succeeded. */
module ThreadPoolRequests {
  import opened Wrappers
  import opened SeqFacts
  import opened ThreadPool

  datatype Place =
    | InWq | InSlowQueue | OnWorker(w: nat)
    | BeingCancelled(l: LoopId) | InLoopQueue(l: LoopId) | BeingDrained(l: LoopId)
    | Over

  predicate At(s: State, id: ReqId, place: Place) {
    match place
    case InWq => Work(id) in s.wq
    case InSlowQueue => id in s.slowPending
    case OnWorker(w) => w < |s.workers| && s.workers[w].Running? && s.workers[w].id == id
    case BeingCancelled(l) => l < |s.loops| && s.loops[l].cancelling == Some(id)
    case InLoopQueue(l) => l < |s.loops| && id in s.loops[l].wq
    case BeingDrained(l) => l < |s.loops| && id in s.loops[l].drain
    case Over => Finished(s, id)
  }

  /** Every submitted request is in exactly the place `loc` gives, and nothing else is anywhere. */
  ghost predicate Located(s: State, loc: map<ReqId, Place>) {
    && loc.Keys == s.reqs.Keys
    && forall id, place :: At(s, id, place) <==> id in loc && loc[id] == place
  }

  ghost predicate NoDuplicates(s: State) {
    && NoDup(s.wq) && NoDup(s.slowPending)
    && (forall l :: 0 <= l < |s.loops| ==> NoDup(s.loops[l].wq) && NoDup(s.loops[l].drain))
    && (forall i, j :: 0 <= i < j < |s.done| ==> s.done[i].0 != s.done[j].0)
  }

  /** A request's own fields agree with where it is and with what has happened to it. */
  predicate Consistent(s: State, id: ReqId, place: Place)
    requires id in s.reqs
  {
    var r := s.reqs[id];
    && r.loop < |s.loops|
    && (r.selfLinked <==> place.OnWorker?)
    && (place.BeingCancelled? || place.InLoopQueue? || place.BeingDrained? ==> place.l == r.loop)
    && (r.work == Callback ==> place.InWq? || place.InSlowQueue? || place.OnWorker? || place.BeingCancelled?)
    && (r.work == Null ==> place.InLoopQueue? || place.BeingDrained? || place.Over?)
    && (r.work == Cancelled ==> place.BeingCancelled? || place.InLoopQueue? || place.BeingDrained? || place.Over?)
    && (id in s.ran <==> r.work == Null || place.OnWorker?)
    && (id in s.cancelReturnedZero <==> r.work == Cancelled)
  }

  ghost predicate Conserved(s: State, loc: map<ReqId, Place>) {
    && Located(s, loc)
    && NoDuplicates(s)
    && s.ran <= s.reqs.Keys && s.cancelReturnedZero <= s.reqs.Keys
    && (forall id :: id in s.reqs ==> Consistent(s, id, loc[id]))
    && (forall i :: 0 <= i < |s.done| ==>
          (s.done[i].1 == ECanceled <==> s.done[i].0 in s.cancelReturnedZero))
  }

  // ---- Changes that move no request ----

  ghost predicate SameRequests(s: State, t: State) {
    && s.slowPending == t.slowPending && s.reqs == t.reqs && s.loops == t.loops
    && s.ran == t.ran && s.cancelReturnedZero == t.cancelReturnedZero && s.done == t.done
    && (forall id :: Work(id) in s.wq <==> Work(id) in t.wq)
    && |s.workers| == |t.workers|
    && (forall w :: 0 <= w < |s.workers| ==>
          (s.workers[w] == t.workers[w] || (!s.workers[w].Running? && !t.workers[w].Running?)))
  }

  lemma NoneMoved(s: State, t: State, loc: map<ReqId, Place>)
    requires Conserved(s, loc) && SameRequests(s, t) && NoDup(t.wq)
    ensures Conserved(t, loc)
  {
    forall id, place ensures At(t, id, place) <==> id in loc && loc[id] == place {
      assert At(t, id, place) <==> At(s, id, place);
    }
    forall id | id in t.reqs ensures Consistent(t, id, loc[id]) { assert Consistent(s, id, loc[id]); }
  }

  // ---- Changes that move one request ----

  /** From s to t request `id` goes to `place` and every other request stays where it is. */
  ghost predicate Moves(s: State, t: State, id: ReqId, place: Place) {
    forall x, p :: At(t, x, p) <==> if x == id then p == place else At(s, x, p)
  }

  /** s and t agree about every request but `id`. */
  ghost predicate OthersKept(s: State, t: State, id: ReqId) {
    && t.reqs.Keys == s.reqs.Keys + {id}
    && (forall x :: x in s.reqs && x != id ==>
          t.reqs[x] == s.reqs[x] && (x in t.ran <==> x in s.ran) && (x in t.cancelReturnedZero <==> x in s.cancelReturnedZero))
    && t.ran <= s.ran + {id} && t.cancelReturnedZero <= s.cancelReturnedZero + {id}
    && |t.loops| == |s.loops|
  }

  lemma OneMoved(s: State, t: State, loc: map<ReqId, Place>, id: ReqId, place: Place)
    requires Conserved(s, loc) && Moves(s, t, id, place) && OthersKept(s, t, id)
    requires Consistent(t, id, place)
    requires NoDuplicates(t)
    requires forall i :: 0 <= i < |t.done| ==> (t.done[i].1 == ECanceled <==> t.done[i].0 in t.cancelReturnedZero)
    ensures Conserved(t, loc[id := place])
  {
    var loc' := loc[id := place];
    forall x, p ensures At(t, x, p) <==> x in loc' && loc'[x] == p {
      assert At(t, x, p) <==> if x == id then p == place else At(s, x, p);
    }
    forall x | x in t.reqs ensures Consistent(t, x, loc'[x]) {
      if x != id { assert Consistent(s, x, loc[x]); }
    }
  }

  lemma SignalMovesNone(s: State, wake: nat, loc: map<ReqId, Place>)
    requires Conserved(s, loc)
    ensures Conserved(Signal(s, wake), loc)
  {
    NoneMoved(s, Signal(s, wake), loc);
  }

  // ---- The steps, one by one ----

  lemma SubmitSlowConserves(s: State, l: LoopId, id: ReqId, wake: nat, loc: map<ReqId, Place>)
    requires Conserved(s, loc) && InSync(s, 0) && Enabled(s, Submit(l, id, true, wake))
    ensures Conserved(Step(s, Submit(l, id, true, wake)), loc[id := InSlowQueue])
  {
    var t := s.(reqs := s.reqs[id := Request(l, Callback, false)], slowPending := s.slowPending + [id]);
    NoDupSnoc(s.slowPending, id) by { assert !At(s, id, InSlowQueue); }
    forall x, p ensures At(t, x, p) <==> if x == id then p == InSlowQueue else At(s, x, p) {
      assert !At(s, id, p);
    }
    OneMoved(s, t, loc, id, InSlowQueue);
    if s.markerSelfLinked {
      var u := t.(wq := t.wq + [RunSlow], markerSelfLinked := false);
      NoDupSnoc(t.wq, RunSlow);
      NoneMoved(t, u, loc[id := InSlowQueue]);
      SignalMovesNone(u, wake, loc[id := InSlowQueue]);
    }
  }

  lemma SubmitFastConserves(s: State, l: LoopId, id: ReqId, wake: nat, loc: map<ReqId, Place>)
    requires Conserved(s, loc) && Enabled(s, Submit(l, id, false, wake))
    ensures Conserved(Step(s, Submit(l, id, false, wake)), loc[id := InWq])
  {
    var t := s.(reqs := s.reqs[id := Request(l, Callback, false)], wq := s.wq + [Work(id)]);
    NoDupSnoc(s.wq, Work(id)) by { assert !At(s, id, InWq); }
    forall x, p ensures At(t, x, p) <==> if x == id then p == InWq else At(s, x, p) {
      assert !At(s, id, p);
    }
    OneMoved(s, t, loc, id, InWq);
    SignalMovesNone(t, wake, loc[id := InWq]);
  }

  /** A worker takes a request off one of the two queues. */
  lemma TakeConserves(s: State, t: State, w: nat, id: ReqId, slow: bool, loc: map<ReqId, Place>)
    requires Conserved(s, loc) && w < |s.workers| && !s.workers[w].Running?
    requires if slow then s.slowPending != [] && id == s.slowPending[0] else s.wq != [] && s.wq[0] == Work(id)
    requires var u := SelfLink(s, id);
      t == SetPhase(u.(slowPending := if slow then s.slowPending[1..] else s.slowPending,
                       wq := if slow then s.wq else s.wq[1..], ran := s.ran + {id}), w, Running(id, slow))
    ensures Conserved(t, loc[id := OnWorker(w)])
  {
    var from := if slow then InSlowQueue else InWq;
    assert At(s, id, from);
    if slow { NoDupTail(s.slowPending); } else { NoDupTail(s.wq); }
    forall x, p ensures At(t, x, p) <==> if x == id then p == OnWorker(w) else At(s, x, p) {
      assert At(s, x, p) <==> x in loc && loc[x] == p;
    }
    assert Consistent(s, id, from);
    OneMoved(s, t, loc, id, OnWorker(w));
  }

  lemma TopConserves(s: State, w: nat, wake: nat, loc: map<ReqId, Place>) returns (loc': map<ReqId, Place>)
    requires w < |s.workers| && s.workers[w] == Starting
    requires Conserved(s, loc) && MarkerOnce(s)
    ensures Conserved(WorkerTop(s, w, wake), loc')
    decreases if s.wq != [] && s.wq[0] == RunSlow then 1 else 0
  {
    loc' := loc;
    if MustWait(s) {
      NoneMoved(s, WorkerTop(s, w, wake), loc);
    } else {
      MarkerTail(s);
      NoDupTail(s.wq);
      var rest := s.wq[1..];
      match s.wq[0]
      case Work(id) =>
        loc' := loc[id := OnWorker(w)];
        TakeConserves(s, WorkerTop(s, w, wake), w, id, false, loc);
      case RunSlow =>
        if s.slowRunning >= Threshold(s) {
          var t := s.(wq := rest + [RunSlow], markerSelfLinked := false);
          assert rest[0] == s.wq[1];
          NoDupSnoc(rest, RunSlow);
          NoneMoved(s, t, loc);
          loc' := TopConserves(t, w, wake, loc);
        } else if s.slowPending == [] {
          var t := s.(wq := rest, markerSelfLinked := true);
          NoneMoved(s, t, loc);
          loc' := TopConserves(t, w, wake, loc);
        } else {
          loc' := loc[s.slowPending[0] := OnWorker(w)];
          TakeSlowConserves(s, w, wake, loc);
        }
    }
  }

  lemma TakeSlowConserves(s: State, w: nat, wake: nat, loc: map<ReqId, Place>)
    requires w < |s.workers| && s.workers[w] == Starting
    requires Conserved(s, loc) && MarkerOnce(s) && s.wq != [] && s.wq[0] == RunSlow
    requires s.slowRunning < Threshold(s) && s.slowPending != []
    ensures Conserved(WorkerTop(s, w, wake), loc[s.slowPending[0] := OnWorker(w)])
  {
    MarkerMovesNone(s, wake, loc);
    SlowInTwo(s, w, wake);
    TakeConserves(MarkerMoved(s, wake), WorkerTop(s, w, wake), w, s.slowPending[0], true, loc);
  }

  /** The marker taken off, and put back if more than one slow request is waiting. */
  function MarkerMoved(s: State, wake: nat): State
    requires s.wq != [] && s.slowPending != []
  {
    var last, rest := s.slowPending[1..] == [], s.wq[1..];
    var t := s.(wq := if last then rest else rest + [RunSlow], markerSelfLinked := last, slowRunning := s.slowRunning + 1);
    if last then t else Signal(t, wake)
  }

  lemma SlowInTwo(s: State, w: nat, wake: nat)
    requires w < |s.workers| && MarkerOnce(s) && s.wq != [] && s.wq[0] == RunSlow
    requires s.slowRunning < Threshold(s) && s.slowPending != []
    ensures var m, id := MarkerMoved(s, wake), s.slowPending[0];
      && |m.workers| == |s.workers| && m.slowPending == s.slowPending && (s.workers[w] == Starting ==> m.workers[w] == Starting)
      && WorkerTop(s, w, wake) ==
           SetPhase(SelfLink(m, id).(slowPending := s.slowPending[1..], wq := m.wq, ran := m.ran + {id}), w, Running(id, true))
  {
  }

  lemma MarkerMovesNone(s: State, wake: nat, loc: map<ReqId, Place>)
    requires Conserved(s, loc) && MarkerOnce(s) && s.wq != [] && s.wq[0] == RunSlow && s.slowPending != []
    ensures Conserved(MarkerMoved(s, wake), loc)
  {
    NoDupTail(s.wq);
    NoDupSnoc(s.wq[1..], RunSlow);
    NoneMoved(s, MarkerMoved(s, wake), loc);
  }

  lemma PublishConserves(s: State, w: nat, loc: map<ReqId, Place>)
    requires Conserved(s, loc) && Enabled(s, Publish(w))
    ensures var id := s.workers[w].id;
      Conserved(Step(s, Publish(w)), loc[id := InLoopQueue(s.reqs[id].loop)])
  {
    var t, id := Step(s, Publish(w)), s.workers[w].id;
    var l := s.reqs[id].loop;
    assert At(s, id, OnWorker(w)) && Consistent(s, id, OnWorker(w));
    NoDupSnoc(s.loops[l].wq, id) by { assert !At(s, id, InLoopQueue(l)); }
    forall x, p ensures At(t, x, p) <==> if x == id then p == InLoopQueue(l) else At(s, x, p) {
      assert At(s, x, p) <==> x in loc && loc[x] == p;
    }
    OneMoved(s, t, loc, id, InLoopQueue(l));
  }

  lemma CancelMoves(s: State, l: LoopId, id: ReqId, loc: map<ReqId, Place>)
    requires Located(s, loc) && l < |s.loops| && s.loops[l].cancelling == None
    requires id in loc && loc[id] in {InWq, InSlowQueue, InLoopQueue(l), BeingDrained(l)}
    ensures var u := Unlink(s, l, id);
      Moves(s, u.(loops := u.loops[l := u.loops[l].(cancelling := Some(id))]), id, BeingCancelled(l))
  {
    var u := Unlink(s, l, id);
    var t := u.(loops := u.loops[l := u.loops[l].(cancelling := Some(id))]);
    forall x, p ensures At(t, x, p) <==> if x == id then p == BeingCancelled(l) else At(s, x, p) {
      assert At(s, x, p) <==> x in loc && loc[x] == p;
    }
  }

  lemma CancelBeginConserves(s: State, l: LoopId, id: ReqId, loc: map<ReqId, Place>)
    requires Conserved(s, loc) && Enabled(s, CancelBegin(l, id)) && Cancellable(s, id)
    ensures Conserved(Step(s, CancelBegin(l, id)), loc[id := BeingCancelled(l)])
  {
    assert Consistent(s, id, loc[id]) && !At(s, id, Over) && !At(s, id, BeingCancelled(l));
    CancelMoves(s, l, id, loc);
    WithoutNoDup(s.wq, Work(id));
    WithoutNoDup(s.slowPending, id);
    WithoutNoDup(s.loops[l].wq, id);
    WithoutNoDup(s.loops[l].drain, id);
    OneMoved(s, Step(s, CancelBegin(l, id)), loc, id, BeingCancelled(l));
  }

  lemma CancelEndConserves(s: State, l: LoopId, loc: map<ReqId, Place>)
    requires Conserved(s, loc) && Enabled(s, CancelEnd(l))
    ensures Conserved(Step(s, CancelEnd(l)), loc[s.loops[l].cancelling.value := InLoopQueue(l)])
  {
    var t, id := Step(s, CancelEnd(l)), s.loops[l].cancelling.value;
    assert At(s, id, BeingCancelled(l)) && Consistent(s, id, BeingCancelled(l)) && !At(s, id, Over);
    NoDupSnoc(s.loops[l].wq, id) by { assert !At(s, id, InLoopQueue(l)); }
    forall x, p ensures At(t, x, p) <==> if x == id then p == InLoopQueue(l) else At(s, x, p) {
      assert At(s, x, p) <==> x in loc && loc[x] == p;
    }
    OneMoved(s, t, loc, id, InLoopQueue(l));
  }

  lemma DrainBeginConserves(s: State, l: LoopId, loc: map<ReqId, Place>)
    requires Conserved(s, loc) && Enabled(s, DrainBegin(l))
    ensures var loc' := map id | id in loc :: if loc[id] == InLoopQueue(l) then BeingDrained(l) else loc[id];
      Conserved(Step(s, DrainBegin(l)), loc')
  {
    var t := Step(s, DrainBegin(l));
    var loc' := map id | id in loc :: if loc[id] == InLoopQueue(l) then BeingDrained(l) else loc[id];
    forall id, p ensures At(t, id, p) <==> id in loc' && loc'[id] == p {
      assert At(s, id, p) <==> id in loc && loc[id] == p;
      assert At(s, id, InLoopQueue(l)) <==> id in loc && loc[id] == InLoopQueue(l);
    }
    forall id | id in t.reqs ensures Consistent(t, id, loc'[id]) { assert Consistent(s, id, loc[id]); }
  }

  lemma CallDoneConserves(s: State, l: LoopId, loc: map<ReqId, Place>)
    requires Conserved(s, loc) && Enabled(s, CallDone(l))
    ensures Conserved(Step(s, CallDone(l)), loc[s.loops[l].drain[0] := Over])
  {
    var t, id := Step(s, CallDone(l)), s.loops[l].drain[0];
    assert At(s, id, BeingDrained(l)) && Consistent(s, id, BeingDrained(l)) && !At(s, id, Over);
    NoDupTail(s.loops[l].drain);
    assert forall x :: Finished(t, x) <==> Finished(s, x) || x == id by {
      forall x ensures Finished(t, x) <==> Finished(s, x) || x == id {
        assert t.done[|s.done|].0 == id;
        if i :| 0 <= i < |s.done| && s.done[i].0 == x { assert t.done[i].0 == x; }
      }
    }
    forall x, p ensures At(t, x, p) <==> if x == id then p == Over else At(s, x, p) {
      assert At(s, x, p) <==> x in loc && loc[x] == p;
    }
    OneMoved(s, t, loc, id, Over);
  }

  /** Every step of the protocol conserves requests. */
  lemma StepConserves(s: State, a: Action, loc: map<ReqId, Place>) returns (loc': map<ReqId, Place>)
    requires Conserved(s, loc) && InSync(s, 0) && Enabled(s, a)
    ensures Conserved(Step(s, a), loc')
  {
    match a
    case Submit(l, id, slow, wake) =>
      loc' := loc[id := if slow then InSlowQueue else InWq];
      if slow { SubmitSlowConserves(s, l, id, wake, loc); } else { SubmitFastConserves(s, l, id, wake, loc); }
    case WorkerRun(w, wake) =>
      NoneMoved(s, TakeMutex(s, w), loc);
      loc' := TopConserves(TakeMutex(s, w), w, wake, loc);
    case Publish(w) =>
      PublishConserves(s, w, loc);
      loc' := loc[s.workers[w].id := InLoopQueue(s.reqs[s.workers[w].id].loop)];
    case SpuriousWakeup(w) =>
      loc' := loc;
      NoneMoved(s, Step(s, a), loc);
    case CancelBegin(l, id) =>
      loc' := if Cancellable(s, id) then loc[id := BeingCancelled(l)] else loc;
      if Cancellable(s, id) { CancelBeginConserves(s, l, id, loc); }
    case CancelEnd(l) =>
      CancelEndConserves(s, l, loc);
      loc' := loc[s.loops[l].cancelling.value := InLoopQueue(l)];
    case DrainBegin(l) =>
      DrainBeginConserves(s, l, loc);
      loc' := map id | id in loc :: if loc[id] == InLoopQueue(l) then BeingDrained(l) else loc[id];
    case CallDone(l) =>
      CallDoneConserves(s, l, loc);
      loc' := loc[s.loops[l].drain[0] := Over];
  }

  lemma {:induction false} RunConserves(s: State, acts: seq<Action>, loc: map<ReqId, Place>) returns (loc': map<ReqId, Place>)
    requires Conserved(s, loc) && InSync(s, 0) && Legal(s, acts)
    ensures Conserved(After(s, acts), loc')
    decreases |acts|
  {
    if acts == [] {
      loc' := loc;
    } else {
      loc' := StepConserves(s, acts[0], loc);
      StepInSync(s, acts[0]);
      loc' := RunConserves(Step(s, acts[0]), acts[1..], loc');
    }
  }

  /** What every step keeps. Quantified only so that the details stay out of sight until `Invariants` is named. */
  ghost predicate Kept(s: State) { forall z: int :: Invariants(s, z) }

  ghost predicate Invariants(s: State, z: int) { InSync(s, 0) && exists loc :: Conserved(s, loc) }

  lemma IsKept(s: State, loc: map<ReqId, Place>)
    requires InSync(s, 0) && Conserved(s, loc)
    ensures Kept(s)
  {
    forall z: int ensures Invariants(s, z) {}
  }

  lemma KeptMeans(s: State) returns (loc: map<ReqId, Place>)
    requires Kept(s)
    ensures InSync(s, 0) && Conserved(s, loc)
  {
    assert Invariants(s, 0);
    loc :| Conserved(s, loc);
  }

  lemma InitKept(nthreads: nat, nloops: nat)
    ensures Kept(Init(nthreads, nloops))
  {
    InitInSync(nthreads, nloops);
    IsKept(Init(nthreads, nloops), map[]);
  }

  lemma StepKept(s: State, a: Action)
    requires Kept(s) && Enabled(s, a)
    ensures Kept(Step(s, a))
  {
    var loc := KeptMeans(s);
    StepInSync(s, a);
    var now := StepConserves(s, a, loc);
    IsKept(Step(s, a), now);
  }

  lemma {:induction false} RunKept(s: State, acts: seq<Action>)
    requires Kept(s) && Legal(s, acts)
    ensures Kept(After(s, acts)) && |After(s, acts).workers| == |s.workers|
  {
    var loc := KeptMeans(s);
    RunInSync(s, acts);
    var now := RunConserves(s, acts, loc);
    IsKept(After(s, acts), now);
  }

  /** In every run, each submitted request is in exactly one place, once. */
  lemma NeverLostNeverTwice(nthreads: nat, nloops: nat, acts: seq<Action>, id: ReqId)
    requires Legal(Init(nthreads, nloops), acts)
    ensures var s := After(Init(nthreads, nloops), acts);
      && (id in s.reqs ==> exists place :: At(s, id, place) && forall p :: At(s, id, p) ==> p == place)
      && (id !in s.reqs ==> forall p :: !At(s, id, p))
      && NoDuplicates(s)
  {
    InitInSync(nthreads, nloops);
    var s := After(Init(nthreads, nloops), acts);
    var loc := RunConserves(Init(nthreads, nloops), acts, map[]);
    if id in s.reqs {
      assert At(s, id, loc[id]);
    }
  }

  /** In every run `done` is called at most once per request; it reports cancellation exactly when a cancel
      returned 0, and then the work function never ran; otherwise the work function did run. */
  lemma DoneOnceAndTruthful(nthreads: nat, nloops: nat, acts: seq<Action>, i: nat)
    requires Legal(Init(nthreads, nloops), acts)
    requires i < |After(Init(nthreads, nloops), acts).done|
    ensures var s := After(Init(nthreads, nloops), acts);
      var (id, status) := s.done[i];
      && (forall j :: 0 <= j < |s.done| && j != i ==> s.done[j].0 != id)
      && (status == ECanceled <==> id in s.cancelReturnedZero)
      && (status == ECanceled <==> id !in s.ran)
  {
    InitInSync(nthreads, nloops);
    var s := After(Init(nthreads, nloops), acts);
    var loc := RunConserves(Init(nthreads, nloops), acts, map[]);
    var id := s.done[i].0;
    assert At(s, id, Over) && Consistent(s, id, loc[id]);
  }

  /** A request whose work has begun can no longer be cancelled, and one whose cancel succeeded never runs. */
  lemma CancelExcludesRunning(nthreads: nat, nloops: nat, acts: seq<Action>, id: ReqId)
    requires Legal(Init(nthreads, nloops), acts)
    ensures var s := After(Init(nthreads, nloops), acts);
      && !(id in s.ran && id in s.cancelReturnedZero)
      && (Cancellable(s, id) ==> id !in s.ran)
  {
    InitInSync(nthreads, nloops);
    var s := After(Init(nthreads, nloops), acts);
    var loc := RunConserves(Init(nthreads, nloops), acts, map[]);
    if id in s.reqs { assert Consistent(s, id, loc[id]); }
  }

  lemma WorkerNotStuck(s: State, loc: map<ReqId, Place>, w: nat)
    requires Conserved(s, loc) && MarkerOnce(s) && w < |s.workers| && !s.workers[w].Asleep?
    ensures if s.workers[w].Running? then Enabled(s, Publish(w)) else exists wake :: Enabled(s, WorkerRun(w, wake))
  {
    if s.workers[w].Running? {
      var id := s.workers[w].id;
      assert At(s, id, OnWorker(w)) && Consistent(s, id, loc[id]);
    } else {
      var wake := 0;
      if v :| 0 <= v < |s.workers| && s.workers[v] == Asleep { wake := v; }
      assert Enabled(s, WorkerRun(w, wake));
    }
  }

  lemma LoopNotStuck(s: State, loc: map<ReqId, Place>, l: LoopId)
    requires Conserved(s, loc) && l < |s.loops|
    ensures if s.loops[l].cancelling.Some? then Enabled(s, CancelEnd(l)) else Enabled(s, DrainBegin(l)) || Enabled(s, CallDone(l))
  {
    if s.loops[l].cancelling.Some? {
      assert At(s, s.loops[l].cancelling.value, BeingCancelled(l));
    } else if s.loops[l].drain != [] {
      assert At(s, s.loops[l].drain[0], BeingDrained(l));
    }
  }

  lemma {:induction false} KeptNotStuck(s: State, l: LoopId)
    requires Kept(s) && l < |s.loops|
    ensures s.loops[l].cancelling.Some? ==> Enabled(s, CancelEnd(l))
    ensures s.loops[l].cancelling == None ==> Enabled(s, if s.loops[l].drain == [] then DrainBegin(l) else CallDone(l))
  {
    var loc := KeptMeans(s);
    LoopNotStuck(s, loc, l);
  }

  /** Nobody gets stuck: in every run a worker that is not asleep, a cancel in progress and a drain in progress can
      always take their next step. */
  lemma NobodyStuck(nthreads: nat, nloops: nat, acts: seq<Action>, w: nat, l: LoopId)
    requires Legal(Init(nthreads, nloops), acts)
    ensures var s := After(Init(nthreads, nloops), acts);
      && (w < |s.workers| && s.workers[w].Running? ==> Enabled(s, Publish(w)))
      && (w < |s.workers| && !s.workers[w].Running? && !s.workers[w].Asleep? ==> exists wake :: Enabled(s, WorkerRun(w, wake)))
      && (l < |s.loops| && s.loops[l].cancelling.Some? ==> Enabled(s, CancelEnd(l)))
      && (l < |s.loops| && s.loops[l].cancelling.None? ==> Enabled(s, DrainBegin(l)) || Enabled(s, CallDone(l)))
  {
    InitInSync(nthreads, nloops);
    var s := After(Init(nthreads, nloops), acts);
    RunInSync(Init(nthreads, nloops), acts);
    var loc := RunConserves(Init(nthreads, nloops), acts, map[]);
    if w < |s.workers| && !s.workers[w].Asleep? { WorkerNotStuck(s, loc, w); }
    if l < |s.loops| { LoopNotStuck(s, loc, l); }
  }
}
