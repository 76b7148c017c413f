/** What becomes of a timer over any history of its loop: the clock advances, due timers are run, and other timers are
    started, stopped and started again. */
module TimerHistory {
  import opened Timers

  datatype Op =
    | Tick(time: nat)
    | RunDue
    | StartOne(id: TimerId, hasCallback: bool, timeout: nat, repeat: nat)
    | StopOne(id: TimerId)
    | AgainOne(id: TimerId)

  predicate Allowed(t: Timers, op: Op) {
    match op
    case Tick(time) => time <= MAX_U64
    case RunDue => CanSettle(t)
    case StartOne(id, _, timeout, repeat) => id in t.handles && timeout <= MAX_U64 && repeat <= MAX_U64
    case StopOne(id) => id in t.handles
    case AgainOne(id) => id in t.handles
  }

  /** The timers called, and the state afterwards. */
  ghost function Do(t: Timers, op: Op): (seq<TimerId>, Timers)
    requires Valid(t) && Allowed(t, op)
  {
    match op
    case Tick(time) => ([], t.(time := time))
    case RunDue => Run(t)
    case StartOne(id, hasCallback, timeout, repeat) => ([], Start(t, id, hasCallback, timeout, repeat).1)
    case StopOne(id) => ([], Stop(t, id))
    case AgainOne(id) => ([], Again(t, id).1)
  }

  predicate Names(op: Op, id: TimerId) { (op.StartOne? || op.StopOne? || op.AgainOne?) && op.id == id }

  lemma {:induction false} DoValid(t: Timers, op: Op)
    requires Valid(t) && Allowed(t, op)
    ensures Valid(Do(t, op).1)
  {
    match op
    case Tick(_) =>
    case RunDue => RunFiresDue(t);
    case StartOne(id, hasCallback, timeout, repeat) => StartValid(t, id, hasCallback, timeout, repeat);
    case StopOne(id) => StopValid(t, id);
    case AgainOne(id) => AgainValid(t, id);
  }

  /** Some operations, and the states from one to the next. */
  ghost predicate History(states: seq<Timers>, ops: seq<Op>) {
    |states| == |ops| + 1 && forall i :: 0 <= i < |ops| ==> StepAt(states, ops, i)
  }

  ghost predicate StepAt(states: seq<Timers>, ops: seq<Op>, i: nat)
    requires i < |ops| && |states| == |ops| + 1
  {
    Valid(states[i]) && Allowed(states[i], ops[i]) && states[i + 1] == Do(states[i], ops[i]).1
  }

  /** How often a timer is called by operation i. */
  ghost function Calls(states: seq<Timers>, ops: seq<Op>, id: TimerId, i: nat): nat
    requires i < |ops| && History(states, ops)
  {
    assert StepAt(states, ops, i);
    multiset(Do(states[i], ops[i]).0)[id]
  }

  /** Operation i runs the due timers at a time when the deadline has come. */
  predicate Reaches(states: seq<Timers>, ops: seq<Op>, deadline: nat, i: nat) {
    i < |ops| && i < |states| && ops[i].RunDue? && deadline <= states[i].time
  }

  /** So does some operation before operation i. */
  ghost predicate Reached(states: seq<Timers>, ops: seq<Op>, deadline: nat, i: nat) {
    exists j :: 0 <= j < i && Reaches(states, ops, deadline, j)
  }

  lemma {:induction false} ReachedNext(states: seq<Timers>, ops: seq<Op>, deadline: nat, i: nat)
    ensures Reached(states, ops, deadline, i + 1) <==> Reached(states, ops, deadline, i) || Reaches(states, ops, deadline, i)
  {
    if j :| 0 <= j < i + 1 && Reaches(states, ops, deadline, j) { assert j < i || Reaches(states, ops, deadline, i); }
  }

  /** Nothing happens to a timer that is not named and not due; one that is due and does not repeat is called once, and
      then inactive. */
  lemma {:induction false} OneStep(t: Timers, op: Op, id: TimerId)
    requires Valid(t) && Allowed(t, op) && !Names(op, id) && id in t.handles && t.handles[id].repeat == 0
    ensures var (fired, u) := Do(t, op);
      var due := op.RunDue? && t.handles[id].active && t.handles[id].timeout <= t.time;
      && id in u.handles && multiset(fired)[id] == (if due then 1 else 0)
      && u.handles[id] == if due then t.handles[id].(active := false) else t.handles[id]
  {
    match op
    case Tick(_) =>
    case RunDue =>
      RunFiresDue(t);
      CalledOnce(t, Run(t).0, id);
    case StartOne(x, hasCallback, timeout, repeat) => StartMeans(t, x, hasCallback, timeout, repeat);
    case StopOne(x) => StopMeans(t, x);
    case AgainOne(x) => AgainMeans(t, x);
  }

  lemma {:induction false} CalledOnce(t: Timers, fired: seq<TimerId>, id: TimerId)
    requires InDueOrder(t, fired)
    ensures multiset(fired)[id] == if id in DueSet(t) then 1 else 0
  {
    if id in fired {
      var i :| 0 <= i < |fired| && fired[i] == id;
      forall j | 0 <= j < |fired| && j != i ensures fired[j] != id {
        assert Sooner(t.handles[fired[if i < j then i else j]], t.handles[fired[if i < j then j else i]]);
      }
      OnlyOnce(fired, i);
    }
  }

  lemma {:induction false} OnlyOnce(s: seq<TimerId>, i: nat)
    requires i < |s| && forall j :: 0 <= j < |s| && j != i ==> s[j] != s[i]
    ensures multiset(s)[s[i]] == 1
  {
    assert s == s[..i] + [s[i]] + s[i + 1..];
    assert s[i] !in s[..i] && s[i] !in s[i + 1..];
  }

  /** Where the timer stands before operation i. */
  lemma {:induction false} OneShotAt(states: seq<Timers>, ops: seq<Op>, id: TimerId, h: Handle, i: nat)
    requires History(states, ops) && i <= |ops| && (forall j :: 0 <= j < |ops| ==> !Names(ops[j], id))
    requires id in states[0].handles && states[0].handles[id] == h && h.active && h.repeat == 0
    ensures id in states[i].handles
    ensures states[i].handles[id] == if Reached(states, ops, h.timeout, i) then h.(active := false) else h
    decreases i
  {
    if i > 0 {
      assert StepAt(states, ops, i - 1);
      ReachedNext(states, ops, h.timeout, i - 1);
      OneShotAt(states, ops, id, h, i - 1);
      OneStep(states[i - 1], ops[i - 1], id);
    }
  }

  /** A timer started without a repeat is called exactly once, in the first run at a time when its deadline has come, and is
      active until then and not afterwards. */
  lemma {:induction false} OneShotFiresOnce(
    t: Timers, id: TimerId, timeout: nat, states: seq<Timers>, ops: seq<Op>, i: nat)
    requires Valid(t) && id in t.handles && !t.handles[id].closing && timeout <= MAX_U64
    requires History(states, ops) && states[0] == Start(t, id, true, timeout, 0).1
    requires i < |ops| && forall j :: 0 <= j < |ops| ==> !Names(ops[j], id)
    ensures var deadline := if t.time + timeout < 0x1_0000_0000_0000_0000 then t.time + timeout else 0xFFFF_FFFF_FFFF_FFFF;
      && Calls(states, ops, id, i) ==
           (if Reaches(states, ops, deadline, i) && !Reached(states, ops, deadline, i) then 1 else 0)
      && (Active(states[i + 1], id) <==> !Reached(states, ops, deadline, i + 1))
  {
    StartMeans(t, id, true, timeout, 0);
    var h := states[0].handles[id];
    OneShotAt(states, ops, id, h, i);
    OneShotAt(states, ops, id, h, i + 1);
    assert StepAt(states, ops, i);
    OneStep(states[i], ops[i], id);
  }
}
