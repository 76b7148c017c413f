/** The timers of an event loop on top of the pointer heap. */
module TimerLoop {
  import T = Timers
  import H = Heap

  lemma LessIsOrder()
    ensures H.StrictWeakOrder(T.Less)
  {
    forall a: T.Key, b: T.Key, c: T.Key ensures H.NotLessAt(T.Less, a, b, c) {
    }
  }

  class Loop {
    var time: nat
    var counter: nat
    var handles: map<T.TimerId, T.Handle>
    // The heap node embedded in each handle; the key's id leads back from a node to its handle.
    const nodes: map<T.TimerId, H.Node<T.Key>>
    const heap: H.Heap<T.Key>
    ghost const memory: set<H.Node<T.Key>>

    ghost function State(): T.Timers
      reads this
    {
      T.Timers(time, counter, handles)
    }

    ghost predicate Valid()
      reads this, heap, heap.slots, memory
    {
      T.Valid(State()) && Wired({})
    }

    /** The heap holds exactly the active timers, but perhaps for the exceptions. */
    ghost predicate Wired(but: set<T.TimerId>)
      reads this, heap, heap.slots, memory
    {
      Layout() && heap.Valid(T.Less) && ActiveInHeap(but) && HeapActive()
    }

    ghost predicate Layout()
      reads this, heap
    {
      && nodes.Keys == handles.Keys && (forall id :: id in nodes ==> nodes[id] in memory) && heap.repr <= memory
      && (forall a, b :: a in nodes && b in nodes && nodes[a] == nodes[b] ==> a == b)
    }

    /** Every active timer, with the exceptions given, is in the heap under its own key. */
    ghost predicate ActiveInHeap(but: set<T.TimerId>)
      reads this, heap, memory
    {
      forall id :: T.Active(State(), id) && id !in but ==>
        id in nodes && nodes[id] in memory && nodes[id] in heap.repr && nodes[id].key == T.KeyOf(State(), id)
    }

    /** Every node of the heap belongs to an active timer. */
    ghost predicate HeapActive()
      reads this, heap, memory
    {
      forall x :: x in heap.repr && x in memory ==> T.Active(State(), x.key.id) && x.key.id in nodes && nodes[x.key.id] == x
    }

    /** A loop whose timers have all been through `uv_timer_init`. */
    constructor (nodes: map<T.TimerId, H.Node<T.Key>>, time: nat)
      requires time <= T.MAX_U64
      requires forall a, b :: a in nodes && b in nodes && nodes[a] == nodes[b] ==> a == b
      ensures Valid() && this.nodes == nodes
      ensures State() == T.Timers(time, 0, map id | id in nodes :: T.Handle(false, 0, 0, 0, false, false))
    {
      LessIsOrder();
      this.nodes, this.time, counter, memory := nodes, time, 0, nodes.Values;
      handles := map id | id in nodes :: T.Handle(false, 0, 0, 0, false, false);
      heap := new H.Heap(T.Less);
    }

    /** `uv_update_time`, on the reading of the clock. */
    method UpdateTime(now: nat)
      requires Valid() && now <= T.MAX_U64
      modifies this`time
      ensures Valid() && State() == old(State()).(time := now)
    {
      time := now;
    }

    /** `uv_timer_stop`. */
    method Stop(id: T.TimerId)
      requires Valid() && id in handles
      modifies this`handles, heap, memory`left, memory`right, memory`parent
      ensures Valid() && State() == T.Stop(old(State()), id) && T.Stopped(old(State()), State(), id)
      ensures heap.nelts <= old(heap.nelts)
      ensures old(T.Active(State(), id)) ==> heap.nelts + 1 <= old(heap.nelts)
    {
      T.StopMeans(State(), id);
      if !handles[id].active {
        return;
      }
      T.StopValid(State(), id);
      Unhook(id);
      MarkIdle(id);
    }

    method Unhook(id: T.TimerId)
      requires Wired({}) && T.Active(State(), id)
      modifies heap, memory`left, memory`right, memory`parent
      ensures Wired({id}) && nodes[id] !in heap.repr
      ensures heap.nelts + 1 <= old(heap.nelts)
    {
      var _, _ := heap.Remove(nodes[id], T.Less);
    }

    method MarkIdle(id: T.TimerId)
      requires Wired({id}) && T.Active(State(), id) && id in nodes && nodes[id] !in heap.repr
      modifies this`handles
      ensures Wired({}) && State() == T.Stop(old(State()), id)
    {
      handles := handles[id := handles[id].(active := false)];
    }

    /** `uv_timer_start`. */
    method Start(id: T.TimerId, hasCallback: bool, timeout: nat, repeat: nat) returns (status: T.Status)
      requires Valid() && id in handles && timeout <= T.MAX_U64 && repeat <= T.MAX_U64
      requires heap.nelts + 1 < H.UINT_RANGE
      modifies this`handles, this`counter, heap, memory
      ensures Valid() && (status, State()) == T.Start(old(State()), id, hasCallback, timeout, repeat)
      ensures status == T.OK <==> hasCallback && !old(handles)[id].closing
      ensures if status == T.OK then T.Started(old(State()), State(), id, timeout, repeat) else State() == old(State())
      ensures heap.nelts <= old(heap.nelts) + 1
    {
      T.StartMeans(State(), id, hasCallback, timeout, repeat);
      if handles[id].closing || !hasCallback {
        return T.EINVAL;
      }
      ghost var before := State();
      T.StartValid(before, id, hasCallback, timeout, repeat);
      T.StopThenStart(before, id, hasCallback, timeout, repeat);
      if handles[id].active {
        Stop(id);
      }
      assert State() == before || State() == T.Stop(before, id);
      Arm(id, T.Clamp(time, timeout), repeat);
      assert State() == T.Start(before, id, hasCallback, timeout, repeat).1;
      status := T.OK;
    }

    /** The second half of `uv_timer_start`, for a timer that is not in the heap. */
    method Arm(id: T.TimerId, deadline: nat, repeat: nat)
      requires Wired({}) && id in handles && !handles[id].active && heap.nelts + 1 < H.UINT_RANGE
      modifies this`handles, this`counter, heap, memory
      ensures Wired({}) && State() == old(Armed(id, deadline, repeat))
      ensures heap.nelts == old(heap.nelts) + 1
    {
      Rekey(id, T.Key(deadline, counter, id));
      MarkActive(id, deadline, repeat);
      InsertNode(id);
    }

    method InsertNode(id: T.TimerId)
      requires Wired({id}) && T.Active(State(), id) && id in nodes && nodes[id] !in heap.repr
      requires nodes[id].key == T.KeyOf(State(), id) && heap.nelts + 1 < H.UINT_RANGE
      modifies heap, memory
      ensures Wired({}) && heap.nelts == old(heap.nelts) + 1
    {
      heap.Insert(nodes[id], T.Less);
    }

    method Rekey(id: T.TimerId, key: T.Key)
      requires Wired({}) && id in handles && !handles[id].active
      modifies memory`key
      ensures Wired({}) && nodes[id] !in heap.repr && nodes[id].key == key
    {
      assert nodes[id] !in heap.repr && nodes[id] !in heap.slots;
      nodes[id].key := key;
    }

    method MarkActive(id: T.TimerId, deadline: nat, repeat: nat)
      requires Wired({}) && id in handles && !handles[id].active
      requires nodes[id] !in heap.repr && nodes[id].key == T.Key(deadline, counter, id)
      modifies this`handles, this`counter
      ensures Wired({id}) && State() == old(Armed(id, deadline, repeat)) && nodes[id].key == T.KeyOf(State(), id)
    {
      handles := handles[id := T.Handle(true, deadline, repeat, counter, true, handles[id].closing)];
      counter := counter + 1;
    }

    ghost function Armed(id: T.TimerId, deadline: nat, repeat: nat): T.Timers
      requires id in handles
      reads this
    {
      T.Timers(time, counter + 1, handles[id := T.Handle(true, deadline, repeat, counter, true, handles[id].closing)])
    }

    /** `uv_timer_again`. */
    method Again(id: T.TimerId) returns (status: T.Status)
      requires Valid() && id in handles && heap.nelts + 1 < H.UINT_RANGE
      modifies this`handles, this`counter, heap, memory
      ensures Valid() && (status, State()) == T.Again(old(State()), id)
      ensures status == T.OK <==> old(handles)[id].hasCallback
      ensures var h := old(handles)[id];
        if h.hasCallback && h.repeat > 0 && !h.closing then T.Started(old(State()), State(), id, h.repeat, h.repeat)
        else State() == old(State())
      ensures heap.nelts <= old(heap.nelts) + 1
    {
      T.AgainMeans(State(), id);
      if !handles[id].hasCallback {
        return T.EINVAL;
      }
      if handles[id].repeat != 0 {
        Stop(id);
        var _ := Start(id, handles[id].hasCallback, handles[id].repeat, handles[id].repeat);
      }
      status := T.OK;
    }

    /** `uv__next_timeout`. */
    method NextTimeout() returns (r: int)
      requires Valid()
      ensures r == T.NextTimeout(State())
    {
      var m := heap.Min(T.Less);
      if m == null {
        assert T.ActiveSet(State()) == {};
        return -1;
      }
      RootIsFirst(m);
      var h := handles[m.key.id];
      if h.timeout <= time {
        return 0;
      }
      r := h.timeout - time;
      if r > T.MAX_INT { r := T.MAX_INT; }
    }

    lemma RootIsFirst(m: H.Node<T.Key>)
      requires Valid() && m in heap.repr && forall x :: x in heap.repr ==> !T.Less(x.key, m.key)
      ensures T.ActiveSet(State()) != {} && m.key.id == T.First(State())
    {
      assert m.key.id in T.ActiveSet(State());
      assert T.IsFirst(State(), m.key.id);
      T.FirstUnique(State(), m.key.id, T.First(State()));
    }

    /** The timer at the root of the heap, if it is due. */
    method FirstDue() returns (due: bool, id: T.TimerId)
      requires Valid()
      ensures due <==> T.DueSet(State()) != {}
      ensures due ==> T.ActiveSet(State()) != {} && id == T.First(State()) && id in handles
    {
      due, id := false, 0;
      T.FirstDecides(State());
      var m := heap.Min(T.Less);
      if m == null {
        assert T.ActiveSet(State()) == {};
        return;
      }
      RootIsFirst(m);
      id := m.key.id;
      due := handles[id].timeout <= time;
    }

    /** One iteration of `uv__run_timers`, up to the call. */
    method FireFirst() returns (due: bool, id: T.TimerId)
      requires Valid()
      modifies this`handles, this`counter, heap, memory
      ensures due <==> old(T.DueSet(State())) != {}
      ensures due ==> old(T.ActiveSet(State())) != {} && id == old(T.First(State())) && id in old(handles)
      ensures Valid() && State() == if due then T.Fire(old(State()), id) else old(State())
    {
      due, id := FirstDue();
      if due {
        assert T.Active(State(), id);
        Stop(id);
        var _ := Again(id);
      }
    }

    /** `uv__run_timers`, with callbacks that touch no timers: they are recorded in the order they are called. */
    method RunTimers() returns (fired: seq<T.TimerId>)
      requires Valid() && T.CanSettle(State())
      modifies this`handles, this`counter, heap, memory
      ensures Valid() && (fired, State()) == T.Run(old(State()))
    {
      ghost var states := T.RunHasTrace(State());
      fired := RunAlong(T.Run(State()).0, states);
    }

    method RunAlong(ghost ids: seq<T.TimerId>, ghost states: seq<T.Timers>) returns (fired: seq<T.TimerId>)
      requires Valid() && T.Trace(ids, states) && State() == states[0]
      modifies this`handles, this`counter, heap, memory
      ensures Valid() && fired == ids && State() == states[|ids|]
    {
      fired := [];
      while true
        invariant Valid() && |fired| <= |ids| && fired == ids[..|fired|] && State() == states[|fired|]
        decreases |ids| - |fired|
      {
        var due, id := StepAlong(ids, states, |fired|);
        if !due {
          break;
        }
        fired := fired + [id];
      }
    }

    method StepAlong(ghost ids: seq<T.TimerId>, ghost states: seq<T.Timers>, ghost n: nat) returns (due: bool, id: T.TimerId)
      requires Valid() && T.Trace(ids, states) && n <= |ids| && State() == states[n]
      modifies this`handles, this`counter, heap, memory
      ensures Valid() && (due <==> n < |ids|)
      ensures State() == if due then states[n + 1] else states[n]
      ensures due ==> id == ids[n]
    {
      assert n < |ids| ==> T.TraceAt(ids, states, n);
      due, id := FireFirst();
    }
  }
}
