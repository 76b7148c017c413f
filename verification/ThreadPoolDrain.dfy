/** What happens to the requests in a loop's queue while `uv__work_done` runs and everybody else goes on: they are
    finished, or cancelled again and back in the queue. */
module ThreadPoolDrain {
  import opened Wrappers
  import opened SeqFacts
  import opened ThreadPool

  /** The request has come back to the loop, and is finished unless it is still waiting for `done`. */
  ghost predicate Back(s: State, l: LoopId, id: ReqId)
    requires l < |s.loops|
  {
    id in s.loops[l].wq || id in s.loops[l].drain || s.loops[l].cancelling == Some(id) || Finished(s, id)
  }

  /** From s to t no request of the loop gets away and none joins those being drained. */
  ghost predicate NoneLost(s: State, t: State, l: LoopId) {
    && l < |s.loops| == |t.loops| && |t.loops[l].drain| <= |s.loops[l].drain|
    && forall id :: Back(s, l, id) ==> Back(t, l, id)
  }

  /** What `uv__work_done` itself does; the rest is what its callbacks and the other threads do. */
  predicate OfDrain(a: Action, l: LoopId) { a == DrainBegin(l) || a == CallDone(l) }

  lemma {:induction false} NoneLostOn(s: State, t: State, u: State, l: LoopId)
    requires NoneLost(s, t, l) && NoneLost(t, u, l)
    ensures NoneLost(s, u, l)
  {
    forall id | Back(s, l, id) ensures Back(u, l, id) { assert Back(t, l, id); }
  }

  lemma {:induction false} TopKeepsLoops(s: State, w: nat, wake: nat)
    requires w < |s.workers| && MarkerOnce(s)
    ensures WorkerTop(s, w, wake).loops == s.loops && WorkerTop(s, w, wake).done == s.done
    decreases if s.wq != [] && s.wq[0] == RunSlow then 1 else 0
  {
    if !MustWait(s) && s.wq[0] == RunSlow {
      MarkerTail(s);
      var rest := s.wq[1..];
      if s.slowRunning >= Threshold(s) {
        assert rest[0] == s.wq[1];
        TopKeepsLoops(s.(wq := rest + [RunSlow], markerSelfLinked := false), w, wake);
      } else if s.slowPending == [] {
        TopKeepsLoops(s.(wq := rest, markerSelfLinked := true), w, wake);
      }
    }
  }

  lemma {:induction false} DoneGrows(s: State, t: State, r: (ReqId, Status), id: ReqId)
    requires t.done == s.done + [r]
    ensures (Finished(s, id) ==> Finished(t, id)) && Finished(t, r.0)
  {
    assert t.done[|s.done|] == r;
    if i :| 0 <= i < |s.done| && s.done[i].0 == id { assert t.done[i].0 == id; }
  }

  lemma {:induction false} BackAtLoop(s: State, t: State, m: LoopId, q: Loop, l: LoopId)
    requires m < |s.loops| && l < |s.loops| && t.loops == s.loops[m := q] && t.done == s.done
    requires q.drain == s.loops[m].drain
    requires forall id :: id in s.loops[m].wq || s.loops[m].cancelling == Some(id) ==> id in q.wq || q.cancelling == Some(id)
    ensures NoneLost(s, t, l)
  {
    forall id | Back(s, l, id) ensures Back(t, l, id) {}
  }

  lemma {:induction false} OthersLoseNone(s: State, a: Action, l: LoopId)
    requires Enabled(s, a) && l < |s.loops| && !OfDrain(a, l)
    ensures NoneLost(s, Step(s, a), l)
  {
    match a
    case Submit(_, _, _, _) =>
    case WorkerRun(w, wake) => TopKeepsLoops(TakeMutex(s, w), w, wake);
    case Publish(w) => var m := s.reqs[s.workers[w].id].loop; BackAtLoop(s, Step(s, a), m, Step(s, a).loops[m], l);
    case SpuriousWakeup(_) =>
    case CancelBegin(_, _) =>
    case CancelEnd(m) => BackAtLoop(s, Step(s, a), m, Step(s, a).loops[m], l);
    case DrainBegin(m) =>
    case CallDone(m) => OtherLoopCalls(s, m, l);
  }

  lemma {:induction false} OtherLoopCalls(s: State, m: LoopId, l: LoopId)
    requires Enabled(s, CallDone(m)) && l < |s.loops| && m != l
    ensures NoneLost(s, Step(s, CallDone(m)), l)
  {
    var t := Step(s, CallDone(m));
    forall id | Back(s, l, id) ensures Back(t, l, id) { DoneGrows(s, t, t.done[|s.done|], id); }
  }

  /** One turn of the loop of `uv__work_done`. */
  lemma {:induction false} CallLosesNone(s: State, l: LoopId)
    requires Enabled(s, CallDone(l))
    ensures NoneLost(s, Step(s, CallDone(l)), l)
  {
    var t := Step(s, CallDone(l));
    forall id | Back(s, l, id) ensures Back(t, l, id) { DoneGrows(s, t, t.done[|s.done|], id); }
  }

  /** At the end every request that was in the queue is finished, or has been cancelled again. */
  lemma {:induction false} AllServed(s: State, t: State, l: LoopId)
    requires NoneLost(s, t, l) && t.loops[l].drain == [] && t.loops[l].cancelling == None
    ensures forall id :: id in s.loops[l].drain ==> Finished(t, id) || id in t.loops[l].wq
  {
    forall id | id in s.loops[l].drain ensures Finished(t, id) || id in t.loops[l].wq { assert Back(s, l, id); }
  }

  /** `uv__work_done` has taken the queue over. */
  lemma {:induction false} TakenOver(s: State, l: LoopId)
    requires Enabled(s, DrainBegin(l))
    ensures var t := Step(s, DrainBegin(l));
      && Called(s, t, l, 0) && NoneLost(t, t, l) && t.loops[l].cancelling == None && t.loops[l].drain == s.loops[l].wq
      && Legal(s, [DrainBegin(l)]) && After(s, [DrainBegin(l)]) == t
  {
    assert [DrainBegin(l)][1..] == [];
  }

  /** The queue has been taken over and its first n requests are done, in order, with nothing else going on. */
  ghost predicate Called(s: State, t: State, l: LoopId, n: nat) {
    && l < |s.loops| == |t.loops| && n <= |s.loops[l].wq| && t.loops[l].wq == []
    && t.loops[l].drain == s.loops[l].wq[n..] && |t.done| == |s.done| + n && s.done <= t.done
    && forall i :: 0 <= i < n ==> t.done[|s.done| + i].0 == s.loops[l].wq[i]
  }

  lemma {:induction false} CalledNext(s: State, t: State, l: LoopId, n: nat)
    requires Called(s, t, l, n) && Enabled(t, CallDone(l))
    ensures n < |s.loops[l].wq| && Called(s, Step(t, CallDone(l)), l, n + 1)
  {
  }

  /** After n calls: t is the state, s the one when the queue had been taken over. */
  ghost predicate Draining(start: State, s: State, t: State, l: LoopId, n: nat, quiet: bool) {
    NoneLost(s, t, l) && t.loops[l].cancelling == None && (quiet ==> Called(start, t, l, n))
  }

  lemma {:induction false} DrainingOn(start: State, s: State, t: State, u: State, l: LoopId, n: nat, quiet: bool)
    requires Draining(start, s, t, l, n, quiet) && Enabled(t, CallDone(l)) && NoneLost(t, u, l)
    requires u.loops[l].cancelling == None && (quiet ==> u == Step(t, CallDone(l)))
    ensures Draining(start, s, u, l, n + 1, quiet)
  {
    NoneLostOn(s, t, u, l);
    if quiet { CalledNext(start, t, l, n); }
  }

  lemma {:induction false} Extend(s: State, acts: seq<Action>, a: Action)
    requires Legal(s, acts) && Enabled(After(s, acts), a)
    ensures Legal(s, acts + [a]) && After(s, acts + [a]) == Step(After(s, acts), a)
    decreases |acts|
  {
    if acts == [] {
      assert ([a])[1..] == [];
    } else {
      assert (acts + [a])[1..] == acts[1..] + [a];
      Extend(Step(s, acts[0]), acts[1..], a);
    }
  }
}
