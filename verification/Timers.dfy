/** Timers as values: the state of all timer handles of a loop and what starting, stopping and running them does. */
module Timers {
  const MAX_U64: nat := 0xFFFF_FFFF_FFFF_FFFF
  const MAX_INT: nat := 0x7FFF_FFFF

  type TimerId = nat

  datatype Status = OK | EINVAL

  /** A timer handle. `hasCallback` says whether timer_cb is non-null. */
  datatype Handle = Handle(hasCallback: bool, timeout: nat, repeat: nat, startId: nat, active: bool, closing: bool)

  datatype Timers = Timers(time: nat, counter: nat, handles: map<TimerId, Handle>)

  datatype Key = Key(timeout: nat, startId: nat, id: TimerId)

  /** `timer_less_than`. */
  predicate Less(a: Key, b: Key) {
    a.timeout < b.timeout || (a.timeout == b.timeout && a.startId < b.startId)
  }

  predicate Active(t: Timers, id: TimerId) { id in t.handles && t.handles[id].active }

  function KeyOf(t: Timers, id: TimerId): Key
    requires id in t.handles
  {
    Key(t.handles[id].timeout, t.handles[id].startId, id)
  }

  ghost predicate Valid(t: Timers) {
    && t.time <= MAX_U64
    && (forall id :: id in t.handles ==> t.handles[id].timeout <= MAX_U64 && t.handles[id].repeat <= MAX_U64)
    && (forall id :: Active(t, id) ==>
          t.handles[id].hasCallback && !t.handles[id].closing && t.handles[id].startId < t.counter)
    && (forall a, b :: Active(t, a) && Active(t, b) && t.handles[a].startId == t.handles[b].startId ==> a == b)
  }

  /** Sixty-four bit addition that sticks at the largest value; the source detects the wrap after the fact. */
  function Clamp(time: nat, timeout: nat): (r: nat)
    requires time <= MAX_U64 && timeout <= MAX_U64
    ensures r == if time + timeout <= MAX_U64 then time + timeout else MAX_U64
  {
    var sum := (time + timeout) % (MAX_U64 + 1);
    if sum < timeout then MAX_U64 else sum
  }

  /** `uv_timer_stop`. */
  function Stop(t: Timers, id: TimerId): Timers
    requires id in t.handles
  {
    if !t.handles[id].active then t
    else t.(handles := t.handles[id := t.handles[id].(active := false)])
  }

  /** `uv_timer_start`. */
  function Start(t: Timers, id: TimerId, hasCallback: bool, timeout: nat, repeat: nat): (Status, Timers)
    requires id in t.handles && t.time <= MAX_U64 && timeout <= MAX_U64
  {
    var h := t.handles[id];
    if h.closing || !hasCallback then (EINVAL, t)
    else (OK, t.(counter := t.counter + 1,
                 handles := t.handles[id := Handle(true, Clamp(t.time, timeout), repeat, t.counter, true, false)]))
  }

  /** `uv_timer_again`. */
  function Again(t: Timers, id: TimerId): (Status, Timers)
    requires id in t.handles && t.time <= MAX_U64 && t.handles[id].repeat <= MAX_U64
  {
    var h := t.handles[id];
    if !h.hasCallback then (EINVAL, t)
    else if h.repeat == 0 then (OK, t)
    else (OK, Start(Stop(t, id), id, h.hasCallback, h.repeat, h.repeat).1)
  }

  /** What `uv__run_timers` does to a due timer before calling it. */
  function Fire(t: Timers, id: TimerId): Timers
    requires id in t.handles && t.time <= MAX_U64 && t.handles[id].repeat <= MAX_U64
  {
    Again(Stop(t, id), id).1
  }

  // ---- What the operations mean for the handles ----

  /** From t to u nothing changes but the handle of one timer, and perhaps the counter. */
  predicate OnlyTouches(t: Timers, u: Timers, id: TimerId) {
    u.time == t.time && u.handles.Keys == t.handles.Keys && forall x :: x in t.handles && x != id ==> u.handles[x] == t.handles[x]
  }

  /** The timer is active with a deadline that sticks at the largest value, the repeat given, and a start id above that of
      every timer started before it. */
  predicate Started(t: Timers, u: Timers, id: TimerId, timeout: nat, repeat: nat) {
    && OnlyTouches(t, u, id) && id in t.handles && id in u.handles
    && var h := u.handles[id];
    && h.active && h.hasCallback && h.repeat == repeat && h.closing == t.handles[id].closing
    && h.timeout == (if t.time + timeout < 0x1_0000_0000_0000_0000 then t.time + timeout else 0xFFFF_FFFF_FFFF_FFFF)
    && h.startId == t.counter < u.counter
    && forall x :: x in t.handles && x != id && t.handles[x].active ==> t.handles[x].startId < h.startId
  }

  /** The timer is inactive and otherwise as it was. */
  predicate Stopped(t: Timers, u: Timers, id: TimerId) {
    && OnlyTouches(t, u, id) && id in t.handles && id in u.handles && u.counter == t.counter
    && var h := u.handles[id];
    && !h.active && h.hasCallback == t.handles[id].hasCallback && h.timeout == t.handles[id].timeout
    && h.repeat == t.handles[id].repeat && h.startId == t.handles[id].startId && h.closing == t.handles[id].closing
  }

  lemma StartMeans(t: Timers, id: TimerId, hasCallback: bool, timeout: nat, repeat: nat)
    requires Valid(t) && id in t.handles && timeout <= MAX_U64
    ensures var (status, u) := Start(t, id, hasCallback, timeout, repeat);
      && (status == OK <==> hasCallback && !t.handles[id].closing)
      && (if status == OK then Started(t, u, id, timeout, repeat) else u == t)
  {
  }

  lemma StopMeans(t: Timers, id: TimerId)
    requires Valid(t) && id in t.handles
    ensures Stopped(t, Stop(t, id), id)
  {
  }

  /** A repeating timer is started again with its repeat for a timeout; any other is left as it is, and one that never had
      a callback is refused. */
  lemma AgainMeans(t: Timers, id: TimerId)
    requires Valid(t) && id in t.handles
    ensures var (status, u) := Again(t, id);
      var h := t.handles[id];
      && (status == OK <==> h.hasCallback)
      && (if h.hasCallback && h.repeat > 0 && !h.closing then Started(t, u, id, h.repeat, h.repeat)
          else u == t)
  {
    StopMeans(t, id);
    StopValid(t, id);
    StartMeans(Stop(t, id), id, true, t.handles[id].repeat, t.handles[id].repeat);
  }

  // ---- Every operation keeps the state valid ----

  lemma StartValid(t: Timers, id: TimerId, hasCallback: bool, timeout: nat, repeat: nat)
    requires Valid(t) && id in t.handles && timeout <= MAX_U64 && repeat <= MAX_U64
    ensures Valid(Start(t, id, hasCallback, timeout, repeat).1)
  {
    var u := Start(t, id, hasCallback, timeout, repeat).1;
    assert forall x :: x != id ==> (Active(u, x) <==> Active(t, x));
  }

  lemma StopValid(t: Timers, id: TimerId)
    requires Valid(t) && id in t.handles
    ensures Valid(Stop(t, id))
  {
    var u := Stop(t, id);
    assert forall x :: Active(u, x) ==> Active(t, x);
  }

  lemma AgainValid(t: Timers, id: TimerId)
    requires Valid(t) && id in t.handles
    ensures Valid(Again(t, id).1)
  {
    StopValid(t, id);
    var h := t.handles[id];
    StartValid(Stop(t, id), id, h.hasCallback, h.repeat, h.repeat);
  }

  lemma FireValid(t: Timers, id: TimerId)
    requires Valid(t) && id in t.handles
    ensures Valid(Fire(t, id))
  {
    StopValid(t, id);
    AgainValid(Stop(t, id), id);
  }

  // ---- Which timer comes first ----

  ghost predicate IsFirst(t: Timers, id: TimerId) {
    Active(t, id) && forall x :: Active(t, x) ==> !Less(KeyOf(t, x), KeyOf(t, id))
  }

  ghost function ActiveSet(t: Timers): set<TimerId> { set id | id in t.handles && t.handles[id].active }

  ghost function DueSet(t: Timers): set<TimerId> {
    set id | id in t.handles && t.handles[id].active && t.handles[id].timeout <= t.time
  }

  lemma FirstUnique(t: Timers, a: TimerId, b: TimerId)
    requires Valid(t) && IsFirst(t, a) && IsFirst(t, b)
    ensures a == b
  {
  }

  /** Among finitely many timers one is first. */
  lemma {:induction false} FirstAmong(t: Timers, s: set<TimerId>) returns (id: TimerId)
    requires s != {} && forall x :: x in s ==> x in t.handles
    ensures id in s && forall x :: x in s ==> !Less(KeyOf(t, x), KeyOf(t, id))
    decreases |s|
  {
    var y :| y in s;
    if s == {y} {
      id := y;
    } else {
      assert s - {y} != {};
      id := FirstAmong(t, s - {y});
      if Less(KeyOf(t, y), KeyOf(t, id)) { id := y; }
    }
  }

  lemma FirstExists(t: Timers) returns (id: TimerId)
    requires ActiveSet(t) != {}
    ensures IsFirst(t, id)
  {
    id := FirstAmong(t, ActiveSet(t));
  }

  /** The timer at the root of the heap. */
  ghost function First(t: Timers): (id: TimerId)
    requires ActiveSet(t) != {}
    ensures IsFirst(t, id)
  {
    assert exists x :: IsFirst(t, x) by { var x := FirstExists(t); }
    var x :| IsFirst(t, x);
    x
  }

  // ---- Running the due timers ----

  /** The clock can still advance, or nothing repeats. */
  predicate CanSettle(t: Timers) {
    t.time < MAX_U64 || forall id :: id in t.handles && t.handles[id].active ==> t.handles[id].repeat == 0
  }

  /** Firing a due timer then takes exactly that timer out of the due ones. */
  lemma FireShrinksDue(t: Timers, id: TimerId)
    requires Valid(t) && CanSettle(t) && id in DueSet(t)
    ensures DueSet(Fire(t, id)) == DueSet(t) - {id} && CanSettle(Fire(t, id))
  {
    var u := Fire(t, id);
    assert Active(t, id) && u.time == t.time;
    assert forall x :: x in t.handles && x != id ==> u.handles[x] == t.handles[x];
  }

  ghost function Run(t: Timers): (r: (seq<TimerId>, Timers))
    requires Valid(t) && CanSettle(t)
    decreases |DueSet(t)|
  {
    if ActiveSet(t) == {} || t.handles[First(t)].timeout > t.time then ([], t)
    else
      var id := First(t);
      assert id in DueSet(t);
      FireValid(t, id);
      FireShrinksDue(t, id);
      var (fired, u) := Run(Fire(t, id));
      ([id] + fired, u)
  }

  lemma RunUnfolds(t: Timers)
    requires Valid(t) && CanSettle(t)
    ensures ActiveSet(t) == {} || t.handles[First(t)].timeout > t.time ==> Run(t) == ([], t)
    ensures ActiveSet(t) != {} && t.handles[First(t)].timeout <= t.time ==>
      var id := First(t);
      var u := Fire(t, id);
      Valid(u) && CanSettle(u) && DueSet(u) < DueSet(t) && Run(t) == ([id] + Run(u).0, Run(u).1)
  {
    if ActiveSet(t) != {} && t.handles[First(t)].timeout <= t.time {
      assert First(t) in DueSet(t);
      FireValid(t, First(t));
      FireShrinksDue(t, First(t));
    }
  }

  /** Timer `id` is the first one, it is due, and firing it leads from t to u. */
  ghost predicate FiresTo(t: Timers, id: TimerId, u: Timers) {
    && DueSet(t) != {} && ActiveSet(t) != {} && id == First(t)
    && id in t.handles && t.time <= MAX_U64 && t.handles[id].repeat <= MAX_U64 && u == Fire(t, id)
  }

  /** The states a run goes through. */
  ghost predicate Trace(ids: seq<TimerId>, states: seq<Timers>) {
    && |states| == |ids| + 1
    && (forall i :: 0 <= i < |ids| ==> TraceAt(ids, states, i))
    && DueSet(states[|ids|]) == {}
  }

  ghost predicate TraceAt(ids: seq<TimerId>, states: seq<Timers>, i: nat)
    requires i < |ids| && i + 1 < |states|
  {
    FiresTo(states[i], ids[i], states[i + 1])
  }

  lemma {:induction false} RunHasTrace(t: Timers) returns (states: seq<Timers>)
    requires Valid(t) && CanSettle(t)
    ensures Trace(Run(t).0, states) && states[0] == t && states[|Run(t).0|] == Run(t).1
    decreases |DueSet(t)|
  {
    RunUnfolds(t);
    FirstDecides(t);
    if DueSet(t) == {} {
      states := [t];
    } else {
      var u := Fire(t, First(t));
      FireShrinksDue(t, First(t));
      var rest := RunHasTrace(u);
      states := [t] + rest;
      TraceCons(t, First(t), u, Run(u).0, rest);
    }
  }

  lemma TraceCons(t: Timers, id: TimerId, u: Timers, ids: seq<TimerId>, states: seq<Timers>)
    requires Trace(ids, states) && states[0] == u && FiresTo(t, id, u)
    ensures Trace([id] + ids, [t] + states)
  {
    var a, b := [id] + ids, [t] + states;
    forall i | 0 <= i < |a| ensures TraceAt(a, b, i) {
      if i > 0 { assert TraceAt(ids, states, i - 1) && a[i] == ids[i - 1] && b[i] == states[i - 1] && b[i + 1] == states[i]; }
    }
  }

  /** Starting an active timer stops it first, which makes no difference to the result. */
  lemma StopThenStart(t: Timers, id: TimerId, hasCallback: bool, timeout: nat, repeat: nat)
    requires id in t.handles && t.time <= MAX_U64 && timeout <= MAX_U64
    requires hasCallback && !t.handles[id].closing
    ensures Start(Stop(t, id), id, hasCallback, timeout, repeat) == Start(t, id, hasCallback, timeout, repeat)
  {
    var u := Stop(t, id);
    var h := Handle(true, Clamp(t.time, timeout), repeat, t.counter, true, false);
    assert u.handles[id := h] == t.handles[id := h];
  }

  /** A due timer exists exactly when the first timer is due. */
  lemma FirstDecides(t: Timers)
    ensures DueSet(t) == {} <==> ActiveSet(t) == {} || t.handles[First(t)].timeout > t.time
  {
    if ActiveSet(t) != {} {
      var f := First(t);
      if t.handles[f].timeout <= t.time {
        assert f in DueSet(t);
      } else {
        assert forall x :: Active(t, x) ==> x !in DueSet(t);
      }
    } else {
      assert DueSet(t) <= ActiveSet(t);
    }
  }

  /** The handle of a timer after it has fired: idle, or restarted from now. */
  predicate Refired(before: Handle, time: nat, after: Handle)
    requires time <= MAX_U64 && before.repeat <= MAX_U64
  {
    if before.repeat == 0 then after == before.(active := false)
    else after == before.(timeout := Clamp(time, before.repeat), startId := after.startId)
  }

  /** By deadline, and by start id among equal deadlines. */
  predicate Sooner(a: Handle, b: Handle) { a.timeout < b.timeout || (a.timeout == b.timeout && a.startId < b.startId) }

  /** The timers in `fired` are those due in t, each once, the sooner ones first. */
  ghost predicate InDueOrder(t: Timers, fired: seq<TimerId>) {
    && (forall i :: 0 <= i < |fired| ==> fired[i] in DueSet(t))
    && (forall id :: id in DueSet(t) ==> id in fired)
    && (forall i, j :: 0 <= i < j < |fired| ==> Sooner(t.handles[fired[i]], t.handles[fired[j]]))
  }

  /** From t to u every due timer was refired and nothing else changed. */
  ghost predicate Settled(t: Timers, u: Timers)
    requires t.time <= MAX_U64 && forall id :: id in t.handles ==> t.handles[id].repeat <= MAX_U64
  {
    && u.time == t.time && t.counter <= u.counter && u.handles.Keys == t.handles.Keys
    && (forall id :: id in t.handles && id !in DueSet(t) ==> u.handles[id] == t.handles[id])
    && (forall id :: id in DueSet(t) ==> Refired(t.handles[id], t.time, u.handles[id]) && u.handles[id].startId <= u.counter)
  }

  lemma FirstBeforeRest(t: Timers, id: TimerId, rest: seq<TimerId>)
    requires Valid(t) && CanSettle(t) && IsFirst(t, id) && id in DueSet(t)
    requires InDueOrder(Fire(t, id), rest)
    ensures InDueOrder(t, [id] + rest)
  {
    var t1, fired := Fire(t, id), [id] + rest;
    FireShrinksDue(t, id);
    forall x | x in DueSet(t1) ensures t1.handles[x] == t.handles[x] && Sooner(t.handles[id], t.handles[x]) {
      assert Active(t, x) && x != id;
    }
    forall i, j | 0 <= i < j < |fired| ensures Sooner(t.handles[fired[i]], t.handles[fired[j]]) {
      assert fired[j] == rest[j - 1];
      if i > 0 { assert fired[i] == rest[i - 1]; }
    }
    assert forall k :: 0 < k < |fired| ==> fired[k] == rest[k - 1];
    forall x | x in DueSet(t) ensures x in fired {
      if x != id { assert x in DueSet(t1) && x in rest; }
    }
  }

  lemma FireThenSettle(t: Timers, id: TimerId, u: Timers)
    requires Valid(t) && CanSettle(t) && id in DueSet(t)
    requires Valid(Fire(t, id)) && Settled(Fire(t, id), u)
    ensures Settled(t, u)
  {
    var t1 := Fire(t, id);
    FireShrinksDue(t, id);
    FireOne(t, id);
    assert id !in DueSet(t1) && id in t1.handles && u.handles[id] == t1.handles[id];
  }

  lemma FireOne(t: Timers, id: TimerId)
    requires Valid(t) && id in DueSet(t)
    ensures var u := Fire(t, id);
      && u.time == t.time && t.counter <= u.counter && u.handles.Keys == t.handles.Keys
      && (forall x :: x in t.handles && x != id ==> u.handles[x] == t.handles[x])
      && Refired(t.handles[id], t.time, u.handles[id]) && u.handles[id].startId <= u.counter
  {
    assert Active(t, id);
  }

  /** One run fires every timer due at entry exactly once, in (timeout, start id) order, and nothing else; it
      restarts the repeating ones from now, and leaves no timer due. */
  lemma {:induction false} RunFiresDue(t: Timers)
    requires Valid(t) && CanSettle(t)
    ensures var (fired, u) := Run(t);
      InDueOrder(t, fired) && Valid(u) && Settled(t, u) && DueSet(u) == {}
    decreases |DueSet(t)|
  {
    FirstDecides(t);
    if DueSet(t) != {} {
      var id := First(t);
      FireValid(t, id);
      FireShrinksDue(t, id);
      RunFiresDue(Fire(t, id));
      var (rest, u) := Run(Fire(t, id));
      FirstBeforeRest(t, id, rest);
      FireThenSettle(t, id, u);
    }
  }

  /** `uv__next_timeout`: how long the loop may block, -1 for ever. */
  ghost function NextTimeout(t: Timers): int {
    if ActiveSet(t) == {} then -1
    else
      var due := t.handles[First(t)].timeout;
      if due <= t.time then 0
      else if due - t.time > MAX_INT then MAX_INT else due - t.time
  }

  /** Minus one exactly when no timer is active, zero exactly when some deadline has come, and otherwise the time left to
      the deadline of some timer, to none before it, cut at the largest signed 32-bit number. */
  lemma NextTimeoutMeans(t: Timers)
    requires Valid(t)
    ensures NextTimeout(t) == -1 <==> forall id :: !Active(t, id)
    ensures NextTimeout(t) == 0 <==> exists id :: Active(t, id) && t.handles[id].timeout <= t.time
    ensures NextTimeout(t) == 0 <==> DueSet(t) != {}
    ensures NextTimeout(t) > 0 ==> forall id :: Active(t, id) ==> t.time + NextTimeout(t) <= t.handles[id].timeout
    ensures 0 < NextTimeout(t) < 0x7FFF_FFFF ==> exists id :: Active(t, id) && t.handles[id].timeout - t.time == NextTimeout(t)
    ensures -1 <= NextTimeout(t) <= 0x7FFF_FFFF
  {
    FirstDecides(t);
    if ActiveSet(t) == {} {
      forall id ensures !Active(t, id) { assert id !in ActiveSet(t); }
    } else {
      assert Active(t, First(t));
    }
    if id :| Active(t, id) && t.handles[id].timeout <= t.time { assert id in DueSet(t); }
  }

  /** After a run the loop may block. */
  lemma RunThenBlock(t: Timers)
    requires Valid(t) && CanSettle(t)
    ensures NextTimeout(Run(t).1) != 0
  {
    RunFiresDue(t);
    NextTimeoutMeans(Run(t).1);
  }

  // ---- At the end of time ----

  ghost function FireMany(t: Timers, n: nat): Timers
    requires Valid(t)
    decreases n
  {
    if n == 0 || ActiveSet(t) == {} || t.handles[First(t)].timeout > t.time then t
    else
      FireValid(t, First(t));
      FireMany(Fire(t, First(t)), n - 1)
  }

  /** When the clock stands at the largest value, a repeating timer is due again as soon as it has fired. */
  lemma {:induction false} DueForEver(t: Timers, n: nat, r: TimerId)
    requires Valid(t) && t.time == MAX_U64 && Active(t, r) && t.handles[r].repeat > 0
    ensures DueSet(FireMany(t, n)) != {}
    decreases n
  {
    FirstDecides(t);
    assert r in DueSet(t);
    if n > 0 {
      var f := First(t);
      FireValid(t, f);
      DueForEver(Fire(t, f), n - 1, r);
    }
  }

  lemma FireManyStep(t: Timers, n: nat)
    requires Valid(t) && DueSet(t) != {}
    ensures First(t) in DueSet(t) && Valid(Fire(t, First(t))) && FireMany(t, n + 1) == FireMany(Fire(t, First(t)), n)
  {
    FirstDecides(t);
    FireValid(t, First(t));
  }

  lemma {:induction false} Settles(t: Timers, n: nat)
    requires Valid(t) && CanSettle(t) && n == |DueSet(t)|
    ensures DueSet(FireMany(t, n)) == {}
    decreases n
  {
    if n == 0 {
      assert FireMany(t, 0) == t;
    } else {
      FireManyStep(t, n - 1);
      FireShrinksDue(t, First(t));
      SettlesNext(t, First(t), n);
      Settles(Fire(t, First(t)), n - 1);
    }
  }

  lemma SettlesNext(t: Timers, f: TimerId, n: nat)
    requires f in DueSet(t) && n == |DueSet(t)| && f in t.handles && t.time <= MAX_U64 && t.handles[f].repeat <= MAX_U64
    requires DueSet(Fire(t, f)) == DueSet(t) - {f}
    ensures |DueSet(Fire(t, f))| == n - 1
  {
  }

  /** `uv__run_timers` comes to an end exactly when the clock can still advance or no active timer repeats. */
  lemma RunEndsExactlyWhen(t: Timers)
    requires Valid(t)
    ensures CanSettle(t) <==> exists n :: DueSet(FireMany(t, n)) == {}
  {
    if CanSettle(t) {
      Settles(t, |DueSet(t)|);
    } else {
      var r :| r in t.handles && t.handles[r].active && t.handles[r].repeat != 0;
      forall n: nat ensures DueSet(FireMany(t, n)) != {} { DueForEver(t, n, r); }
    }
  }
}
