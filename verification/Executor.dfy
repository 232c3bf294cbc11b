/** The executor of one SPDK thread: tasks, run queue, wakers and reference counts. */
module Executor {

  datatype TaskState = Idle | Running | Notified | Ready

  /** A task. `state` and `strong` are the program's; the rest is history: whether it was ever
      polled, whether its future has finished, whether a wake came since its latest poll began. */
  datatype Task = Task(state: TaskState, strong: int, polled: bool, done: bool, woken: bool)

  /** `stack` holds the tasks being polled, innermost last (a future may spawn and poll another
      in place); `wakers` the wakers that are stored somewhere, each holding one reference. */
  datatype State = State(tasks: seq<Task>, runq: seq<nat>, stack: seq<nat>, wakers: multiset<nat>)

  datatype Action =
    | Spawn
    | SpawnLocal
    | PollBegin
    | PollEnd(ready: bool)
    | CloneWaker(t: nat)
    | DropWaker(t: nat)
    | Wake(t: nat)
    | WakeByRef(t: nat)

  /** A waker of task t can be used: a stored one, or the borrowed one of a poll under way. */
  predicate Reachable(s: State, t: nat) { t in s.wakers || t in s.stack }

  predicate Enabled(s: State, a: Action) {
    match a
    case Spawn => true
    case SpawnLocal => true
    case PollBegin => s.stack == [] && s.runq != [] && s.runq[0] < |s.tasks|
    case PollEnd(_) => s.stack != [] && s.stack[|s.stack| - 1] < |s.tasks|
    case CloneWaker(t) => Reachable(s, t) && t < |s.tasks|
    case DropWaker(t) => t in s.wakers && t < |s.tasks|
    case Wake(t) => t in s.wakers && t < |s.tasks|
    case WakeByRef(t) => Reachable(s, t) && t < |s.tasks|
  }

  function WithState(s: State, t: nat, x: TaskState): State
    requires t < |s.tasks|
  {
    s.(tasks := s.tasks[t := s.tasks[t].(state := x)])
  }

  function AddRef(s: State, t: nat, n: int): State
    requires t < |s.tasks|
  {
    s.(tasks := s.tasks[t := s.tasks[t].(strong := s.tasks[t].strong + n)])
  }

  /** One more run-queue entry, holding one more reference. */
  function Pushed(s: State, t: nat): State
    requires t < |s.tasks|
  {
    AddRef(s, t, 1).(runq := s.runq + [t])
  }

  /** A wake marks a task being polled, queues an idle one, and ignores the others. */
  function Woken(s: State, t: nat): State
    requires t < |s.tasks|
  {
    var seen := s.(tasks := s.tasks[t := s.tasks[t].(woken := true)]);
    match s.tasks[t].state
    case Running => WithState(seen, t, Notified)
    case Idle => Pushed(WithState(seen, t, Notified), t)
    case Notified => seen
    case Ready => seen
  }

  /** A poll of task t starts, holding a reference of its own. */
  function Entered(s: State, t: nat): State
    requires t < |s.tasks|
  {
    s.(tasks := s.tasks[t := s.tasks[t].(state := Running, polled := true, woken := false)], stack := s.stack + [t])
  }

  /** The head of the run queue is polled, unless it is running already. */
  function PollBeginStep(s: State): State
    requires Enabled(s, PollBegin)
  {
    var t, rest := s.runq[0], s.(runq := s.runq[1..]);
    if s.tasks[t].state == Running then AddRef(rest, t, -1) else Entered(rest, t)
  }

  /** The innermost poll returns: a task that was woken meanwhile goes back to the queue, with
      state Idle; and the poll's own reference is dropped. */
  function PollEndStep(s: State, ready: bool): State
    requires Enabled(s, PollEnd(ready))
  {
    var t := s.stack[|s.stack| - 1];
    var ended :=
      if ready then s.(tasks := s.tasks[t := s.tasks[t].(state := Ready, done := true)])
      else if s.tasks[t].state == Notified then Pushed(WithState(s, t, Idle), t)
      else WithState(s, t, Idle);
    AddRef(ended, t, -1).(stack := s.stack[..|s.stack| - 1])
  }

  function Next(s: State, a: Action): State
    requires Enabled(s, a)
  {
    match a
    case Spawn => s.(tasks := s.tasks + [Task(Idle, 1, false, false, false)], runq := s.runq + [|s.tasks|])
    case SpawnLocal => Entered(s.(tasks := s.tasks + [Task(Idle, 1, false, false, false)]), |s.tasks|)
    case PollBegin => PollBeginStep(s)
    case PollEnd(ready) => PollEndStep(s, ready)
    case CloneWaker(t) => AddRef(s, t, 1).(wakers := s.wakers + multiset{t})
    case DropWaker(t) => AddRef(s, t, -1).(wakers := s.wakers - multiset{t})
    case Wake(t) => AddRef(Woken(s, t), t, -1).(wakers := s.wakers - multiset{t})
    case WakeByRef(t) => Woken(s, t)
  }

  const EMPTY := State([], [], [], multiset{})

  ghost predicate IsRun(run: seq<State>, acts: seq<Action>) {
    && |run| == |acts| + 1 && run[0] == EMPTY
    && forall i | 0 <= i < |acts| :: Enabled(run[i], acts[i]) && run[i + 1] == Next(run[i], acts[i])
  }

  // Reference counts.

  function Count(q: seq<nat>, t: nat): nat {
    if |q| == 0 then 0 else Count(q[..|q| - 1], t) + if q[|q| - 1] == t then 1 else 0
  }

  lemma {:induction false} CountPush(q: seq<nat>, x: nat, t: nat)
    ensures Count(q + [x], t) == Count(q, t) + if x == t then 1 else 0
  {
  }

  lemma {:induction false} CountTail(q: seq<nat>, t: nat)
    requires q != []
    ensures Count(q, t) == Count(q[1..], t) + if q[0] == t then 1 else 0
    decreases |q|
  {
    if |q| > 1 {
      CountTail(q[..|q| - 1], t);
      assert q[1..][..|q| - 2] == q[..|q| - 1][1..];
    }
  }

  lemma {:induction false} CountIn(q: seq<nat>, t: nat)
    ensures Count(q, t) > 0 <==> t in q
    decreases |q|
  {
    if |q| > 0 {
      CountIn(q[..|q| - 1], t);
      assert q == q[..|q| - 1] + [q[|q| - 1]];
    }
  }

  /** The handles on a task: queue entries, stored wakers, polls under way. */
  function Handles(s: State, t: nat): nat {
    Count(s.runq, t) + s.wakers[t] + Count(s.stack, t)
  }

  /** The strong count of every task is the number of its handles. */
  ghost predicate Counted(s: State) {
    && (forall t: nat | t < |s.tasks| :: s.tasks[t].strong == Handles(s, t))
    && (forall t: nat | t >= |s.tasks| :: Handles(s, t) == 0)
  }

  lemma {:induction false} Handle(s: State, t: nat)
    ensures Handles(s, t) > 0 <==> t in s.runq || Reachable(s, t)
  {
    CountIn(s.runq, t);
    CountIn(s.stack, t);
  }

  /** How many handles on task u an action adds or drops. */
  function Change(s: State, a: Action, u: nat): int
    requires Enabled(s, a)
  {
    match a
    case Spawn => if u == |s.tasks| then 1 else 0
    case SpawnLocal => if u == |s.tasks| then 1 else 0
    case PollBegin => if u == s.runq[0] && s.tasks[u].state == Running then -1 else 0
    case PollEnd(ready) =>
      if u != s.stack[|s.stack| - 1] || (!ready && s.tasks[u].state == Notified) then 0 else -1
    case CloneWaker(t) => if u == t then 1 else 0
    case DropWaker(t) => if u == t then -1 else 0
    case Wake(t) => if u != t || s.tasks[t].state == Idle then 0 else -1
    case WakeByRef(t) => if u == t && s.tasks[t].state == Idle then 1 else 0
  }

  lemma {:induction false} StrongChange(s: State, a: Action, u: nat)
    requires Enabled(s, a) && u < |s.tasks|
    ensures u < |Next(s, a).tasks| && Next(s, a).tasks[u].strong == s.tasks[u].strong + Change(s, a, u)
  {
    match a
    case Spawn =>
    case SpawnLocal =>
    case PollBegin =>
    case PollEnd(_) =>
    case CloneWaker(_) =>
    case DropWaker(_) =>
    case Wake(t) =>
      hide Woken;
      WokenStrong(s, t, u);
    case WakeByRef(t) =>
      hide Woken;
      WokenStrong(s, t, u);
  }

  lemma {:induction false} WokenStrong(s: State, t: nat, u: nat)
    requires t < |s.tasks| && u < |s.tasks|
    ensures |Woken(s, t).tasks| == |s.tasks|
    ensures Woken(s, t).tasks[u].strong == s.tasks[u].strong + if u == t && s.tasks[t].state == Idle then 1 else 0
  {
  }

  lemma {:induction false} WokenHandles(s: State, t: nat, u: nat)
    requires t < |s.tasks|
    ensures Handles(Woken(s, t), u) == Handles(s, u) + if u == t && s.tasks[t].state == Idle then 1 else 0
  {
  }

  lemma {:induction false} PollHandles(s: State, a: Action, u: nat)
    requires Enabled(s, a) && (a.PollBegin? || a.PollEnd?)
    ensures Handles(Next(s, a), u) == Handles(s, u) + Change(s, a, u)
  {
    hide Count;
    if a.PollBegin? {
      CountTail(s.runq, u);
      CountPush(s.stack, s.runq[0], u);
    } else {
      var t := s.stack[|s.stack| - 1];
      CountPush(s.runq, t, u);
      CountPush(s.stack[..|s.stack| - 1], t, u);
      assert s.stack == s.stack[..|s.stack| - 1] + [t];
    }
  }

  lemma {:induction false} HandlesChange(s: State, a: Action, u: nat)
    requires Enabled(s, a)
    ensures Handles(Next(s, a), u) == Handles(s, u) + Change(s, a, u)
  {
    match a
    case Spawn => CountPush(s.runq, |s.tasks|, u);
    case SpawnLocal => CountPush(s.stack, |s.tasks|, u);
    case PollBegin => PollHandles(s, a, u);
    case PollEnd(_) => PollHandles(s, a, u);
    case Wake(t) =>
      hide Woken;
      WokenSame(s, t);
      WokenHandles(s, t, u);
    case WakeByRef(t) => WokenHandles(s, t, u);
    case CloneWaker(_) =>
    case DropWaker(_) =>
  }

  lemma {:induction false} WokenSame(s: State, t: nat)
    requires t < |s.tasks|
    ensures Woken(s, t).wakers == s.wakers && Woken(s, t).stack == s.stack && |Woken(s, t).tasks| == |s.tasks|
    ensures forall u: nat | u < |s.tasks| && u != t :: Woken(s, t).tasks[u] == s.tasks[u]
  {
  }

  lemma {:induction false} NewTask(s: State, a: Action)
    requires Enabled(s, a)
    ensures |s.tasks| <= |Next(s, a).tasks| <= |s.tasks| + 1
    ensures |Next(s, a).tasks| > |s.tasks| ==> Next(s, a).tasks[|s.tasks|].strong == 1 == Change(s, a, |s.tasks|)
    ensures forall u: nat | u >= |Next(s, a).tasks| :: Change(s, a, u) == 0
  {
  }

  lemma {:induction false} StepCounted(s: State, a: Action)
    requires Counted(s) && Enabled(s, a)
    ensures Counted(Next(s, a))
  {
    hide Next, Enabled, Change, Handles;
    NewTask(s, a);
    forall u: nat
      ensures u < |Next(s, a).tasks| ==> Next(s, a).tasks[u].strong == Handles(Next(s, a), u)
      ensures u >= |Next(s, a).tasks| ==> Handles(Next(s, a), u) == 0
    {
      HandlesChange(s, a, u);
      if u < |s.tasks| { StrongChange(s, a, u); }
    }
  }

  /** Through every clone, wake, drop and poll, whatever the order, no reference is lost or
      counted twice: a task is freed exactly when it is unqueued, unreachable by any waker and
      not being polled. */
  lemma {:induction false} FreedExactly(run: seq<State>, acts: seq<Action>, n: nat)
    requires IsRun(run, acts) && n < |run|
    ensures Counted(run[n])
    ensures forall t: nat | t < |run[n].tasks| ::
              run[n].tasks[t].strong >= 0
              && (run[n].tasks[t].strong == 0 <==> t !in run[n].runq && !Reachable(run[n], t))
    decreases n
  {
    hide Enabled, Next, Handles, Reachable;
    if n > 0 {
      FreedExactly(run, acts, n - 1);
      StepCounted(run[n - 1], acts[n - 1]);
    } else {
      assert Counted(run[n]) by { EmptyCounted(); }
    }
    forall t: nat | t < |run[n].tasks|
      ensures run[n].tasks[t].strong >= 0
      ensures run[n].tasks[t].strong == 0 <==> t !in run[n].runq && !Reachable(run[n], t)
    {
      Handle(run[n], t);
    }
  }

  lemma {:induction false} EmptyCounted()
    ensures Counted(EMPTY)
  {
  }

  /** A freed task is never used again. */
  lemma {:induction false} FreedForGood(s: State, a: Action, t: nat)
    requires Counted(s) && Enabled(s, a) && t < |s.tasks| && s.tasks[t].strong == 0
    ensures t < |Next(s, a).tasks| && Next(s, a).tasks[t] == s.tasks[t]
  {
    Handle(s, t);
    Untouched(s, a, t);
  }

  lemma {:induction false} Untouched(s: State, a: Action, t: nat)
    requires Enabled(s, a) && t < |s.tasks| && t !in s.runq && !Reachable(s, t)
    ensures t < |Next(s, a).tasks| && Next(s, a).tasks[t] == s.tasks[t]
  {
    match a
    case Spawn =>
    case SpawnLocal =>
    case PollBegin => assert s.runq[0] in s.runq;
    case PollEnd(_) => assert s.stack[|s.stack| - 1] in s.stack;
    case CloneWaker(_) =>
    case DropWaker(_) =>
    case Wake(u) =>
      hide Woken;
      WokenSame(s, u);
    case WakeByRef(u) =>
      hide Woken;
      WokenSame(s, u);
  }

  // No lost wakeup.

  /** A task is on the stack at most once, and there it is Running or Notified; nowhere else is
      it Running; a Notified task is on the stack or queued. */
  ghost predicate Placed(s: State) {
    && (forall t | t in s.runq || t in s.stack || t in s.wakers :: t < |s.tasks|)
    && (forall i, j | 0 <= i < j < |s.stack| :: s.stack[i] != s.stack[j])
    && (forall t | t in s.stack :: s.tasks[t].state == Running || s.tasks[t].state == Notified)
    && (forall t: nat | t < |s.tasks| :: s.tasks[t].state == Running ==> t in s.stack)
    && (forall t: nat | t < |s.tasks| :: s.tasks[t].state == Notified ==> t in s.stack || t in s.runq)
    && (forall t: nat | t < |s.tasks| :: s.tasks[t].state == Ready ==> s.tasks[t].done)
  }

  /** An unfinished task woken since its latest poll began is queued, or being polled and
      Notified. */
  ghost predicate WakesKept(s: State) {
    forall t: nat | t < |s.tasks| && s.tasks[t].woken && !s.tasks[t].done ::
      t in s.runq || (t in s.stack && s.tasks[t].state == Notified)
  }

  lemma {:induction false} InTail(q: seq<nat>, t: nat)
    requires q != [] && t in q && t != q[0]
    ensures t in q[1..]
  {
  }

  lemma {:induction false} InFront(q: seq<nat>, t: nat)
    requires q != [] && t in q && t != q[|q| - 1]
    ensures t in q[..|q| - 1]
  {
  }

  lemma {:induction false} WokenPlaced(s: State, t: nat)
    requires Placed(s) && t < |s.tasks|
    ensures Placed(Woken(s, t))
  {
  }

  lemma {:induction false} BeginPlaced(s: State)
    requires Placed(s) && Enabled(s, PollBegin)
    ensures Placed(PollBeginStep(s))
  {
    forall t | t in s.runq && t != s.runq[0]
      ensures t in s.runq[1..]
    {
      InTail(s.runq, t);
    }
  }

  lemma {:induction false} EndPlaced(s: State, ready: bool)
    requires Placed(s) && Enabled(s, PollEnd(ready))
    ensures Placed(PollEndStep(s, ready))
  {
    var top, rest := s.stack[|s.stack| - 1], s.stack[..|s.stack| - 1];
    forall t
      ensures t in rest <==> t in s.stack && t != top
    {
      if t in s.stack && t != top { InFront(s.stack, t); }
      if t in rest {
        var i :| 0 <= i < |rest| && rest[i] == t;
        assert s.stack[i] == t;
      }
    }
    PoppedPlaced(s, PollEndStep(s, ready), top, rest);
  }

  lemma {:induction false} PoppedPlaced(s: State, s': State, top: nat, rest: seq<nat>)
    requires Placed(s) && |s'.tasks| == |s.tasks| && s'.stack == rest && s'.wakers == s.wakers && top < |s.tasks|
    requires |rest| < |s.stack| && rest == s.stack[..|rest|]
    requires forall t :: t in rest <==> t in s.stack && t != top
    requires s'.runq == s.runq || s'.runq == s.runq + [top]
    requires forall t: nat | t < |s.tasks| && t != top ::
               s'.tasks[t].state == s.tasks[t].state && s'.tasks[t].done == s.tasks[t].done
    requires s'.tasks[top].state == Idle || (s'.tasks[top].state == Ready && s'.tasks[top].done)
    ensures Placed(s')
  {
  }

  lemma {:induction false} SpawnPlaced(s: State, a: Action)
    requires Placed(s) && (a.Spawn? || a.SpawnLocal?)
    ensures Placed(Next(s, a))
  {
    forall i | 0 <= i < |s.stack|
      ensures s.stack[i] < |s.tasks|
    {
      assert s.stack[i] in s.stack;
    }
  }

  lemma {:induction false} CountersPlaced(s: State, t: nat, n: int, wakers: multiset<nat>)
    requires Placed(s) && t < |s.tasks| && forall u | u in wakers :: u < |s.tasks|
    ensures Placed(AddRef(s, t, n).(wakers := wakers))
  {
  }

  lemma {:induction false} StepPlaced(s: State, a: Action)
    requires Placed(s) && Enabled(s, a)
    ensures Placed(Next(s, a))
  {
    hide Woken, PollBeginStep, PollEndStep;
    match a
    case Spawn => SpawnPlaced(s, a);
    case SpawnLocal => SpawnPlaced(s, a);
    case PollBegin => BeginPlaced(s);
    case PollEnd(ready) => EndPlaced(s, ready);
    case Wake(t) =>
      WokenPlaced(s, t);
      WokenSame(s, t);
      CountersPlaced(Woken(s, t), t, -1, s.wakers - multiset{t});
    case WakeByRef(t) => WokenPlaced(s, t);
    case CloneWaker(t) => CountersPlaced(s, t, 1, s.wakers + multiset{t});
    case DropWaker(t) => CountersPlaced(s, t, -1, s.wakers - multiset{t});
  }

  lemma {:induction false} WokenKeepsWakes(s: State, t: nat)
    requires Placed(s) && WakesKept(s) && t < |s.tasks|
    ensures WakesKept(Woken(s, t))
  {
  }

  lemma {:induction false} BeginKeepsWakes(s: State)
    requires Placed(s) && WakesKept(s) && Enabled(s, PollBegin)
    ensures WakesKept(PollBeginStep(s))
  {
  }

  lemma {:induction false} EndKeepsWakes(s: State, ready: bool)
    requires Placed(s) && WakesKept(s) && Enabled(s, PollEnd(ready))
    ensures WakesKept(PollEndStep(s, ready))
  {
    forall t | t in s.stack && t != s.stack[|s.stack| - 1]
      ensures t in s.stack[..|s.stack| - 1]
    {
      InFront(s.stack, t);
    }
  }

  lemma {:induction false} StepWakes(s: State, a: Action)
    requires Placed(s) && WakesKept(s) && Enabled(s, a)
    ensures WakesKept(Next(s, a))
  {
    hide Woken, PollBeginStep, PollEndStep, Placed;
    match a
    case Spawn =>
    case SpawnLocal =>
    case PollBegin => BeginKeepsWakes(s);
    case PollEnd(ready) => EndKeepsWakes(s, ready);
    case Wake(t) =>
      WokenKeepsWakes(s, t);
      WokenSame(s, t);
    case WakeByRef(t) => WokenKeepsWakes(s, t);
    case CloneWaker(_) =>
    case DropWaker(_) =>
  }

  lemma {:induction false} RunWakes(run: seq<State>, acts: seq<Action>, n: nat)
    requires IsRun(run, acts) && n < |run|
    ensures Placed(run[n]) && WakesKept(run[n])
    decreases n
  {
    hide Enabled, Next;
    if n > 0 {
      RunWakes(run, acts, n - 1);
      StepPlaced(run[n - 1], acts[n - 1]);
      StepWakes(run[n - 1], acts[n - 1]);
    }
  }

  predicate IsWake(a: Action) { a.Wake? || a.WakeByRef? }

  /** The action starts a poll of task t. */
  predicate StartsPoll(s: State, a: Action, t: nat)
    requires Enabled(s, a)
  {
    || (a.PollBegin? && s.runq[0] == t && s.tasks[t].state != Running)
    || (a.SpawnLocal? && t == |s.tasks|)
  }

  predicate Finishes(s: State, a: Action, t: nat)
    requires Enabled(s, a)
  {
    a == PollEnd(true) && s.stack[|s.stack| - 1] == t
  }

  lemma {:induction false} WokenHistory(s: State, u: nat, t: nat)
    requires u < |s.tasks|
    ensures |Woken(s, u).tasks| == |s.tasks|
    ensures t < |s.tasks| ==>
              var was, now := s.tasks[t], Woken(s, u).tasks[t];
              now.polled == was.polled && now.done == was.done && now.woken == (u == t || was.woken)
  {
  }

  lemma {:induction false} EndHistory(s: State, ready: bool, t: nat)
    requires Enabled(s, PollEnd(ready))
    ensures |PollEndStep(s, ready).tasks| == |s.tasks|
    ensures t < |s.tasks| ==>
              var was, now := s.tasks[t], PollEndStep(s, ready).tasks[t];
              && now.polled == was.polled && now.woken == was.woken
              && (now.done <==> was.done || (ready && s.stack[|s.stack| - 1] == t))
  {
  }

  /** The history of a task is what the actions say. */
  lemma {:induction false} HistoryStep(s: State, a: Action, t: nat)
    requires Enabled(s, a) && t < |Next(s, a).tasks|
    ensures |s.tasks| <= |Next(s, a).tasks|
    ensures StartsPoll(s, a, t) ==> !IsWake(a)
    ensures var now, known := Next(s, a).tasks[t], t < |s.tasks|;
            && (now.polled <==> (known && s.tasks[t].polled) || StartsPoll(s, a, t))
            && (now.done <==> (known && s.tasks[t].done) || Finishes(s, a, t))
            && (now.woken <==> if StartsPoll(s, a, t) then false
                               else (IsWake(a) && a.t == t) || (known && s.tasks[t].woken))
  {
    hide Woken, PollEndStep;
    TasksGrow(s, a);
    match a
    case PollEnd(ready) => EndHistory(s, ready, t);
    case Wake(u) => WokenHistory(s, u, t);
    case WakeByRef(u) => WokenHistory(s, u, t);
    case Spawn =>
    case SpawnLocal =>
    case PollBegin =>
    case CloneWaker(_) =>
    case DropWaker(_) =>
  }

  /** Task t has been woken, and not polled since. */
  ghost predicate WokenSince(run: seq<State>, acts: seq<Action>, n: nat, t: nat)
    requires IsRun(run, acts) && n < |run|
  {
    exists i :: 0 <= i < n && IsWake(acts[i]) && acts[i].t == t
                && forall j | i < j < n :: !StartsPoll(run[j], acts[j], t)
  }

  /** The future of task t has finished. */
  ghost predicate HasFinished(run: seq<State>, acts: seq<Action>, n: nat, t: nat)
    requires IsRun(run, acts) && n < |run|
  {
    exists i :: 0 <= i < n && Finishes(run[i], acts[i], t)
  }

  lemma {:induction false} WokenMore(run: seq<State>, acts: seq<Action>, n: nat, t: nat)
    requires IsRun(run, acts) && 0 < n < |run|
    ensures WokenSince(run, acts, n, t)
            <==> (IsWake(acts[n - 1]) && acts[n - 1].t == t)
                 || (WokenSince(run, acts, n - 1, t) && !StartsPoll(run[n - 1], acts[n - 1], t))
  {
    hide Enabled, Next, StartsPoll;
    if i :| 0 <= i < n && IsWake(acts[i]) && acts[i].t == t && forall j | i < j < n :: !StartsPoll(run[j], acts[j], t) {
      assert i < n - 1 ==> !StartsPoll(run[n - 1], acts[n - 1], t);
    }
  }

  /** A task counts as woken, and as done, exactly if it is so by the actions of the run. */
  lemma {:induction false} HistoryIs(run: seq<State>, acts: seq<Action>, n: nat, t: nat)
    requires IsRun(run, acts) && n < |run| && t < |run[n].tasks|
    ensures run[n].tasks[t].woken <==> WokenSince(run, acts, n, t)
    ensures run[n].tasks[t].done <==> HasFinished(run, acts, n, t)
    decreases n
  {
    hide Enabled, Next, StartsPoll, Finishes, WokenSince;
    if n > 0 {
      HistoryStep(run[n - 1], acts[n - 1], t);
      WokenMore(run, acts, n, t);
      if t < |run[n - 1].tasks| {
        HistoryIs(run, acts, n - 1, t);
      } else {
        NoneYet(run, acts, n - 1, t);
      }
    }
  }

  /** Nothing has happened to a task before there is one. */
  lemma {:induction false} NoneYet(run: seq<State>, acts: seq<Action>, n: nat, t: nat)
    requires IsRun(run, acts) && n < |run| && t >= |run[n].tasks|
    ensures !WokenSince(run, acts, n, t) && !HasFinished(run, acts, n, t)
    decreases n
  {
    hide Next, StartsPoll, WokenSince;
    if n > 0 {
      assert |run[n - 1].tasks| <= |run[n].tasks| by { TasksGrow(run[n - 1], acts[n - 1]); }
      NoneYet(run, acts, n - 1, t);
      WokenMore(run, acts, n, t);
    } else {
      assert !WokenSince(run, acts, 0, t) by { NeverAtStart(run, acts, t); }
    }
  }

  lemma {:induction false} TasksGrow(s: State, a: Action)
    requires Enabled(s, a)
    ensures |s.tasks| <= |Next(s, a).tasks|
  {
  }

  lemma {:induction false} NeverAtStart(run: seq<State>, acts: seq<Action>, t: nat)
    requires IsRun(run, acts)
    ensures !WokenSince(run, acts, 0, t)
  {
  }

  /** No wakeup is lost, with wakes arriving before, during or after any poll, and nested polls: a
      task woken and not polled since has finished, is in the run queue, or is being polled and
      will be queued when that poll returns. */
  lemma {:induction false} NoLostWakeup(run: seq<State>, acts: seq<Action>, n: nat, t: nat)
    requires IsRun(run, acts) && n < |run| && t < |run[n].tasks| && WokenSince(run, acts, n, t)
    ensures HasFinished(run, acts, n, t) || t in run[n].runq || (t in run[n].stack && run[n].tasks[t].state == Notified)
  {
    hide IsRun, WokenSince, HasFinished;
    RunWakes(run, acts, n);
    HistoryIs(run, acts, n, t);
  }

  /** A task woken during its own poll is queued when that poll returns without finishing. */
  lemma {:induction false} NotifiedIsRequeued(s: State)
    requires Placed(s) && Enabled(s, PollEnd(false)) && s.tasks[s.stack[|s.stack| - 1]].state == Notified
    ensures s.stack[|s.stack| - 1] in Next(s, PollEnd(false)).runq
  {
  }

  // Queue discipline.

  /** The wake does not hit a task that is Idle although it is queued already. */
  predicate Fitting(s: State, a: Action)
    requires Enabled(s, a)
  {
    IsWake(a) ==> !(s.tasks[a.t].state == Idle && a.t in s.runq)
  }

  ghost predicate OnceQueued(s: State) {
    forall t: nat :: Count(s.runq, t) <= 1
  }

  /** What Fitting wakes keep: no task is queued twice or while it is polled, and a finished one
      is neither queued nor polled. */
  ghost predicate Disciplined(s: State) {
    && OnceQueued(s)
    && (forall t | t in s.stack :: t !in s.runq)
    && (forall t: nat | t < |s.tasks| && s.tasks[t].done :: s.tasks[t].state == Ready && t !in s.runq && t !in s.stack)
  }

  lemma {:induction false} NotIn(q: seq<nat>, t: nat)
    requires t !in q
    ensures Count(q, t) == 0
  {
    CountIn(q, t);
  }

  lemma {:induction false} OnceHead(q: seq<nat>)
    requires q != [] && Count(q, q[0]) <= 1
    ensures q[0] !in q[1..]
  {
    CountTail(q, q[0]);
    CountIn(q[1..], q[0]);
  }

  lemma {:induction false} OncePush(q: seq<nat>, t: nat)
    requires t !in q && forall u: nat :: Count(q, u) <= 1
    ensures forall u: nat :: Count(q + [t], u) <= 1
  {
    NotIn(q, t);
    forall u: nat
      ensures Count(q + [t], u) <= 1
    {
      CountPush(q, t, u);
    }
  }

  lemma {:induction false} OnceTail(q: seq<nat>)
    requires q != [] && forall u: nat :: Count(q, u) <= 1
    ensures forall u: nat :: Count(q[1..], u) <= 1
  {
    forall u: nat
      ensures Count(q[1..], u) <= 1
    {
      CountTail(q, u);
    }
  }

  lemma {:induction false} WokenDisciplined(s: State, t: nat)
    requires Placed(s) && Disciplined(s) && t < |s.tasks| && !(s.tasks[t].state == Idle && t in s.runq)
    ensures Disciplined(Woken(s, t))
  {
    hide Count;
    if s.tasks[t].state == Idle { OncePush(s.runq, t); }
  }

  lemma {:induction false} BeginDisciplined(s: State)
    requires Placed(s) && Disciplined(s) && Enabled(s, PollBegin)
    ensures Disciplined(PollBeginStep(s)) && !s.tasks[s.runq[0]].done
  {
    hide Count;
    OnceHead(s.runq);
    OnceTail(s.runq);
    assert s.runq[0] in s.runq;
  }

  lemma {:induction false} EndDisciplined(s: State, ready: bool)
    requires Placed(s) && Disciplined(s) && Enabled(s, PollEnd(ready))
    ensures Disciplined(PollEndStep(s, ready))
  {
    hide Count;
    var t := s.stack[|s.stack| - 1];
    assert t in s.stack;
    OncePush(s.runq, t);
    var rest := s.stack[..|s.stack| - 1];
    forall u | u in rest
      ensures u in s.stack && u != t
    {
      var i :| 0 <= i < |rest| && rest[i] == u;
      assert s.stack[i] == u;
    }
  }

  lemma {:induction false} SpawnDisciplined(s: State, a: Action)
    requires Placed(s) && Disciplined(s) && (a.Spawn? || a.SpawnLocal?)
    ensures Disciplined(Next(s, a))
  {
    hide Count;
    OncePush(s.runq, |s.tasks|);
  }

  lemma {:induction false} CountersDisciplined(s: State, t: nat, n: int, wakers: multiset<nat>)
    requires Disciplined(s) && t < |s.tasks|
    ensures Disciplined(AddRef(s, t, n).(wakers := wakers))
  {
  }

  lemma {:induction false} StepDisciplined(s: State, a: Action)
    requires Placed(s) && Disciplined(s) && Enabled(s, a) && Fitting(s, a)
    ensures Disciplined(Next(s, a))
  {
    hide Woken, PollBeginStep, PollEndStep, Count, Disciplined;
    match a
    case Spawn => SpawnDisciplined(s, a);
    case SpawnLocal => SpawnDisciplined(s, a);
    case PollBegin => BeginDisciplined(s);
    case PollEnd(ready) => EndDisciplined(s, ready);
    case Wake(t) =>
      WokenDisciplined(s, t);
      WokenSame(s, t);
      CountersDisciplined(Woken(s, t), t, -1, s.wakers - multiset{t});
    case WakeByRef(t) => WokenDisciplined(s, t);
    case CloneWaker(t) => CountersDisciplined(s, t, 1, s.wakers + multiset{t});
    case DropWaker(t) => CountersDisciplined(s, t, -1, s.wakers - multiset{t});
  }

  ghost predicate AllFitting(run: seq<State>, acts: seq<Action>)
    requires IsRun(run, acts)
  {
    forall i | 0 <= i < |acts| :: Fitting(run[i], acts[i])
  }

  lemma {:induction false} RunDisciplined(run: seq<State>, acts: seq<Action>, n: nat)
    requires IsRun(run, acts) && n < |run| && AllFitting(run, acts)
    ensures Disciplined(run[n])
    decreases n
  {
    hide Enabled, Next, Fitting;
    if n > 0 {
      RunDisciplined(run, acts, n - 1);
      RunWakes(run, acts, n - 1);
      StepDisciplined(run[n - 1], acts[n - 1]);
    }
  }

  /** A wake of an Idle task that is queued already queues it twice. */
  lemma {:induction false} QueuedTwice(s: State, a: Action)
    requires Enabled(s, a) && !Fitting(s, a)
    ensures Count(Next(s, a).runq, a.t) >= 2
  {
    CountIn(s.runq, a.t);
    CountPush(s.runq, a.t, a.t);
  }

  /** Tasks are queued at most once throughout a run exactly when no wake of the run hits a task
      that is Idle and queued. */
  lemma {:induction false} QueuedOnceIff(run: seq<State>, acts: seq<Action>)
    requires IsRun(run, acts)
    ensures AllFitting(run, acts) <==> forall n | 0 <= n < |run| :: OnceQueued(run[n])
  {
    hide Enabled, Next, Count;
    if AllFitting(run, acts) {
      forall n | 0 <= n < |run|
        ensures OnceQueued(run[n])
      {
        RunDisciplined(run, acts, n);
      }
    } else {
      var i :| 0 <= i < |acts| && !Fitting(run[i], acts[i]);
      QueuedTwice(run[i], acts[i]);
      assert Count(run[i + 1].runq, acts[i].t) >= 2;
    }
  }

  /** In every state of a run a stored waker may be used or dropped, a waker that is stored or lent
      to a poll may be cloned or used by reference, a poll may end either way, and the head of the
      run queue may be polled when no poll is under way. */
  lemma {:induction false} AnythingMayHappen(run: seq<State>, acts: seq<Action>, n: nat, t: nat)
    requires IsRun(run, acts) && n < |run|
    ensures Enabled(run[n], Spawn) && Enabled(run[n], SpawnLocal)
    ensures t in run[n].wakers ==> Enabled(run[n], Wake(t)) && Enabled(run[n], DropWaker(t))
    ensures t in run[n].wakers || t in run[n].stack ==>
              Enabled(run[n], WakeByRef(t)) && Enabled(run[n], CloneWaker(t))
    ensures run[n].stack != [] ==> Enabled(run[n], PollEnd(true)) && Enabled(run[n], PollEnd(false))
    ensures run[n].stack == [] && run[n].runq != [] ==> Enabled(run[n], PollBegin)
  {
    hide IsRun, WakesKept;
    RunWakes(run, acts, n);
    if run[n].stack != [] { assert run[n].stack[|run[n].stack| - 1] in run[n].stack; }
    if run[n].runq != [] { assert run[n].runq[0] in run[n].runq; }
  }

  // The order of the run queue.

  /** What an action queues: a new task, an idle one that is woken, or one that was woken while
      its poll, now ending, was under way. */
  function Queues(s: State, a: Action): seq<nat>
    requires Enabled(s, a)
  {
    match a
    case Spawn => [|s.tasks|]
    case Wake(t) => if s.tasks[t].state == Idle then [t] else []
    case WakeByRef(t) => if s.tasks[t].state == Idle then [t] else []
    case PollEnd(ready) =>
      var t := s.stack[|s.stack| - 1];
      if !ready && s.tasks[t].state == Notified then [t] else []
    case PollBegin => []
    case SpawnLocal => []
    case CloneWaker(_) => []
    case DropWaker(_) => []
  }

  /** The task that the executor takes up. */
  function TakesUp(s: State, a: Action): seq<nat>
    requires Enabled(s, a)
  {
    if a.PollBegin? then [s.runq[0]] else []
  }

  function AllQueued(run: seq<State>, acts: seq<Action>, n: nat): seq<nat>
    requires |run| == |acts| + 1 && n <= |acts| && forall i | 0 <= i < |acts| :: Enabled(run[i], acts[i])
  {
    if n == 0 then [] else AllQueued(run, acts, n - 1) + Queues(run[n - 1], acts[n - 1])
  }

  function AllTaken(run: seq<State>, acts: seq<Action>, n: nat): seq<nat>
    requires |run| == |acts| + 1 && n <= |acts| && forall i | 0 <= i < |acts| :: Enabled(run[i], acts[i])
  {
    if n == 0 then [] else AllTaken(run, acts, n - 1) + TakesUp(run[n - 1], acts[n - 1])
  }

  /** No step puts anything before an entry of the run queue, and the task taken up is polled. */
  lemma {:induction false} QueueStep(s: State, a: Action)
    requires Enabled(s, a)
    ensures s.runq + Queues(s, a) == TakesUp(s, a) + Next(s, a).runq
    ensures a.PollBegin? && s.tasks[s.runq[0]].state != Running ==>
              Next(s, a).stack == [s.runq[0]] && Next(s, a).tasks[s.runq[0]].state == Running
  {
    if a.PollBegin? {
      assert s.runq == [s.runq[0]] + s.runq[1..];
      assert s.runq + [] == s.runq;
    } else {
      assert [] + Next(s, a).runq == Next(s, a).runq && s.runq + [] == s.runq;
    }
  }

  /** First in, first out: over every run, the tasks queued are, in the order in which they were
      queued, those taken up and then those still in the run queue. */
  lemma {:induction false} FirstInFirstOut(run: seq<State>, acts: seq<Action>, n: nat)
    requires IsRun(run, acts) && n < |run|
    ensures AllQueued(run, acts, n) == AllTaken(run, acts, n) + run[n].runq
    decreases n
  {
    if n > 0 {
      hide Next, Enabled, Queues, TakesUp;
      FirstInFirstOut(run, acts, n - 1);
      QueueStep(run[n - 1], acts[n - 1]);
      Regroup(AllTaken(run, acts, n - 1), run[n - 1].runq, Queues(run[n - 1], acts[n - 1]),
              TakesUp(run[n - 1], acts[n - 1]), run[n].runq);
    }
  }

  lemma {:induction false} Regroup(a: seq<nat>, b: seq<nat>, c: seq<nat>, d: seq<nat>, e: seq<nat>)
    requires b + c == d + e
    ensures a + b + c == a + d + e
  {
    assert a + b + c == a + (b + c);
    assert a + (d + e) == a + d + e;
  }

  // Finished futures.

  /** A finished task is Ready for good, and neither queued nor being polled. */
  ghost predicate FinishedApart(s: State) {
    forall t: nat | t < |s.tasks| && s.tasks[t].done :: s.tasks[t].state == Ready && t !in s.runq && t !in s.stack
  }

  /** No future finishes while its own task is in the run queue. */
  predicate EndsUnqueued(s: State, a: Action)
    requires Enabled(s, a)
  {
    a == PollEnd(true) ==> s.stack[|s.stack| - 1] !in s.runq
  }

  lemma {:induction false} EndApart(s: State, ready: bool)
    requires Placed(s) && FinishedApart(s) && Enabled(s, PollEnd(ready)) && EndsUnqueued(s, PollEnd(ready))
    ensures FinishedApart(PollEndStep(s, ready))
  {
    var t, rest := s.stack[|s.stack| - 1], s.stack[..|s.stack| - 1];
    assert t in s.stack;
    forall u | u in rest
      ensures u in s.stack && u != t
    {
      var i :| 0 <= i < |rest| && rest[i] == u;
      assert s.stack[i] == u;
    }
  }

  lemma {:induction false} WokenApart(s: State, t: nat)
    requires FinishedApart(s) && t < |s.tasks|
    ensures FinishedApart(Woken(s, t)) && |Woken(s, t).tasks| == |s.tasks|
  {
  }

  lemma {:induction false} RefApart(s: State, t: nat, n: int)
    requires FinishedApart(s) && t < |s.tasks|
    ensures FinishedApart(AddRef(s, t, n))
  {
  }

  lemma {:induction false} StepApart(s: State, a: Action)
    requires Placed(s) && FinishedApart(s) && Enabled(s, a) && EndsUnqueued(s, a)
    ensures FinishedApart(Next(s, a))
  {
    hide PollEndStep, Woken;
    match a
    case Spawn =>
    case SpawnLocal =>
    case PollBegin => assert s.runq[0] in s.runq;
    case PollEnd(ready) => EndApart(s, ready);
    case Wake(t) =>
      WokenApart(s, t);
      RefApart(Woken(s, t), t, -1);
    case WakeByRef(t) => WokenApart(s, t);
    case CloneWaker(_) =>
    case DropWaker(_) =>
  }

  ghost predicate AllEndUnqueued(run: seq<State>, acts: seq<Action>)
    requires IsRun(run, acts)
  {
    forall i | 0 <= i < |acts| :: EndsUnqueued(run[i], acts[i])
  }

  ghost predicate FinishedUnqueued(s: State) {
    forall t: nat | t < |s.tasks| && s.tasks[t].done :: t !in s.runq
  }

  lemma {:induction false} RunApart(run: seq<State>, acts: seq<Action>, n: nat)
    requires IsRun(run, acts) && n < |run| && AllEndUnqueued(run, acts)
    ensures FinishedApart(run[n])
    decreases n
  {
    hide Enabled, Next, EndsUnqueued;
    if n > 0 {
      RunApart(run, acts, n - 1);
      RunWakes(run, acts, n - 1);
      StepApart(run[n - 1], acts[n - 1]);
    }
  }

  /** Over a run, no finished task is ever in the run queue exactly when no future finishes while
      its own task is queued. */
  lemma {:induction false} FinishedUnqueuedIff(run: seq<State>, acts: seq<Action>)
    requires IsRun(run, acts)
    ensures AllEndUnqueued(run, acts) <==> forall n | 0 <= n < |run| :: FinishedUnqueued(run[n])
  {
    if AllEndUnqueued(run, acts) {
      hide Enabled, Next, EndsUnqueued;
      forall n | 0 <= n < |run|
        ensures FinishedUnqueued(run[n])
      {
        RunApart(run, acts, n);
      }
    } else {
      var i :| 0 <= i < |acts| && !EndsUnqueued(run[i], acts[i]);
      var t := run[i].stack[|run[i].stack| - 1];
      assert run[i + 1].tasks[t].done && t in run[i + 1].runq;
    }
  }

  /** Then no finished future is polled again. */
  lemma {:induction false} NeverPolledAfterReady(run: seq<State>, acts: seq<Action>, i: nat)
    requires IsRun(run, acts) && AllEndUnqueued(run, acts) && i < |acts| && acts[i].PollBegin?
    ensures !run[i].tasks[run[i].runq[0]].done
  {
    hide Next, EndsUnqueued;
    RunApart(run, acts, i);
    assert run[i].runq[0] in run[i].runq;
  }

  /** `more` are steps from s that end with the poll of a finished future. */
  predicate PollsFinished(s: State, more: seq<Action>)
    decreases |more|
  {
    && |more| > 0 && Enabled(s, more[0])
    && (|more| == 1 ==> more[0].PollBegin? && s.tasks[s.runq[0]].done)
    && (|more| > 1 ==> PollsFinished(Next(s, more[0]), more[1..]))
  }

  /** And a finished task that is in the run queue can be polled again: the executor only has to
      go on. */
  lemma {:induction false} QueuedIsPolled(s: State, k: nat) returns (more: seq<Action>)
    requires Placed(s) && k < |s.runq| && s.runq[k] < |s.tasks| && s.tasks[s.runq[k]].done
    ensures PollsFinished(s, more)
    decreases k, |s.stack|
  {
    assert s.runq[0] in s.runq;
    if s.stack != [] {
      var a := PollEnd(false);
      assert s.stack[|s.stack| - 1] in s.stack;
      StepPlaced(s, a);
      var rest := QueuedIsPolled(Next(s, a), k);
      more := [a] + rest;
    } else if k == 0 {
      more := [PollBegin];
    } else if s.tasks[s.runq[0]].done {
      more := [PollBegin];
    } else {
      StepPlaced(s, PollBegin);
      var rest := QueuedIsPolled(Next(s, PollBegin), k - 1);
      more := [PollBegin] + rest;
    }
  }

  /** No wake of a task inside its own poll. */
  predicate OutsideOwnPoll(s: State, a: Action) { IsWake(a) ==> a.t !in s.stack }

  /** The exact meaning of each state, when no task is woken inside its own poll. */
  ghost predicate StatesExact(s: State) {
    forall t: nat | t < |s.tasks| ::
      && (s.tasks[t].done <==> s.tasks[t].state == Ready)
      && (t in s.stack <==> s.tasks[t].state == Running)
      && Count(s.runq, t) == (if s.tasks[t].state == Notified || !s.tasks[t].polled then 1 else 0)
      && (!s.tasks[t].polled ==> s.tasks[t].state == Idle && !Reachable(s, t))
  }

  lemma {:induction false} ExactFits(s: State, a: Action)
    requires StatesExact(s) && Enabled(s, a) && OutsideOwnPoll(s, a)
    ensures Fitting(s, a)
  {
    if IsWake(a) { CountIn(s.runq, a.t); }
  }

  lemma {:induction false} WokenExact(s: State, t: nat)
    requires Placed(s) && StatesExact(s) && t < |s.tasks| && t !in s.stack && Reachable(s, t)
    ensures StatesExact(Woken(s, t))
  {
    hide Count;
    forall u: nat | u < |s.tasks|
      ensures Count(s.runq + [t], u) == Count(s.runq, u) + if u == t then 1 else 0
    {
      CountPush(s.runq, t, u);
    }
  }

  lemma {:induction false} BeginExact(s: State)
    requires Placed(s) && StatesExact(s) && Enabled(s, PollBegin)
    ensures StatesExact(PollBeginStep(s))
  {
    hide Count;
    CountIn(s.runq, s.runq[0]);
    forall u: nat | u < |s.tasks|
      ensures Count(s.runq[1..], u) == Count(s.runq, u) - if u == s.runq[0] then 1 else 0
    {
      CountTail(s.runq, u);
    }
  }

  lemma {:induction false} EndExact(s: State, ready: bool)
    requires Placed(s) && StatesExact(s) && Enabled(s, PollEnd(ready))
    ensures StatesExact(PollEndStep(s, ready))
  {
    hide Count;
    var t, rest := s.stack[|s.stack| - 1], s.stack[..|s.stack| - 1];
    assert t in s.stack;
    forall u: nat | u < |s.tasks|
      ensures u in rest <==> u in s.stack && u != t
    {
      if u in s.stack && u != t { InFront(s.stack, u); }
      if u in rest {
        var i :| 0 <= i < |rest| && rest[i] == u;
        assert s.stack[i] == u;
      }
    }
  }

  lemma {:induction false} SpawnExact(s: State, a: Action)
    requires Placed(s) && StatesExact(s) && (a.Spawn? || a.SpawnLocal?)
    ensures StatesExact(Next(s, a))
  {
    hide Count;
    var n := |s.tasks|;
    NotIn(s.runq, n);
    forall u: nat | u <= n
      ensures Count(s.runq + [n], u) == Count(s.runq, u) + if u == n then 1 else 0
    {
      CountPush(s.runq, n, u);
    }
  }

  lemma {:induction false} CountersExact(s: State, t: nat, n: int, wakers: multiset<nat>)
    requires StatesExact(s) && t < |s.tasks| && forall u: nat | u in wakers :: u < |s.tasks| && Reachable(s, u)
    ensures StatesExact(AddRef(s, t, n).(wakers := wakers))
  {
  }

  lemma {:induction false} StepExact(s: State, a: Action)
    requires Placed(s) && StatesExact(s) && Enabled(s, a) && OutsideOwnPoll(s, a)
    ensures StatesExact(Next(s, a))
  {
    hide Woken, PollBeginStep, PollEndStep, Count, StatesExact;
    match a
    case Spawn => SpawnExact(s, a);
    case SpawnLocal => SpawnExact(s, a);
    case PollBegin => BeginExact(s);
    case PollEnd(ready) => EndExact(s, ready);
    case Wake(t) =>
      WokenSame(s, t);
      WokenExact(s, t);
      CountersExact(Woken(s, t), t, -1, s.wakers - multiset{t});
    case WakeByRef(t) => WokenExact(s, t);
    case CloneWaker(t) => CountersExact(s, t, 1, s.wakers + multiset{t});
    case DropWaker(t) => CountersExact(s, t, -1, s.wakers - multiset{t});
  }

  /** Queue discipline. If no task is woken inside its own poll, then in every reachable state a
      Notified task is queued exactly once, an Idle one is not queued unless it was just
      spawned, a Ready one is not queued, and a task is Ready just when it has finished. */
  lemma {:induction false} QueueDiscipline(run: seq<State>, acts: seq<Action>, n: nat)
    requires IsRun(run, acts) && n < |run| && forall i | 0 <= i < |acts| :: OutsideOwnPoll(run[i], acts[i])
    ensures StatesExact(run[n])
    ensures n < |acts| ==> Fitting(run[n], acts[n])
    decreases n
  {
    hide Enabled, Next, StatesExact, Placed, OutsideOwnPoll, Fitting;
    if n > 0 {
      QueueDiscipline(run, acts, n - 1);
      RunWakes(run, acts, n - 1);
      StepExact(run[n - 1], acts[n - 1]);
    } else {
      assert StatesExact(EMPTY) by { EmptyExact(); }
    }
    if n < |acts| { ExactFits(run[n], acts[n]); }
  }

  lemma {:induction false} EmptyExact()
    ensures StatesExact(EMPTY)
  {
  }

  /** One task's life, as literal states. */
  function Life(state: TaskState, strong: int, polled: bool, done: bool, woken: bool, runq: seq<nat>, stack: seq<nat>,
                wakers: multiset<nat>): State
  {
    State([Task(state, strong, polled, done, woken)], runq, stack, wakers)
  }

  ghost predicate Leads(s: State, a: Action, s': State) { Enabled(s, a) && Next(s, a) == s' }

  lemma {:induction false} SelfWake()
    ensures Leads(EMPTY, Spawn, Life(Idle, 1, false, false, false, [0], [], multiset{}))
    ensures Leads(Life(Idle, 1, false, false, false, [0], [], multiset{}), PollBegin,
                  Life(Running, 1, true, false, false, [], [0], multiset{}))
    ensures Leads(Life(Running, 1, true, false, false, [], [0], multiset{}), WakeByRef(0),
                  Life(Notified, 1, true, false, true, [], [0], multiset{}))
    ensures Leads(Life(Notified, 1, true, false, true, [], [0], multiset{}), CloneWaker(0),
                  Life(Notified, 2, true, false, true, [], [0], multiset{0}))
    ensures Leads(Life(Notified, 2, true, false, true, [], [0], multiset{0}), PollEnd(false),
                  Life(Idle, 2, true, false, true, [0], [], multiset{0}))
  {
  }

  lemma {:induction false} WakeAgain()
    ensures Leads(Life(Idle, 2, true, false, true, [0], [], multiset{0}), Wake(0),
                  Life(Notified, 2, true, false, true, [0, 0], [], multiset{}))
    ensures Leads(Life(Notified, 2, true, false, true, [0, 0], [], multiset{}), PollBegin,
                  Life(Running, 2, true, false, false, [0], [0], multiset{}))
    ensures Leads(Life(Running, 2, true, false, false, [0], [0], multiset{}), PollEnd(true),
                  Life(Ready, 1, true, true, false, [0], [], multiset{}))
    ensures Leads(Life(Ready, 1, true, true, false, [0], [], multiset{}), PollBegin,
                  Life(Running, 1, true, true, false, [], [0], multiset{}))
  {
  }

  /** A wake inside the task's own poll, followed by another before the next poll, queues the
      task twice, and the executor polls its future once more after it has finished. */
  lemma {:induction false} SelfWakeThenWake() returns (run: seq<State>, acts: seq<Action>)
    ensures |run| == 10 && |acts| == 9 && IsRun(run, acts)
    ensures run[6].runq == [0, 0]
    ensures acts[8] == PollBegin && run[8].runq == [0] && run[8].tasks[0].done && run[9].stack == [0]
  {
    hide Next, Enabled;
    SelfWake();
    WakeAgain();
    acts := [Spawn, PollBegin, WakeByRef(0), CloneWaker(0), PollEnd(false), Wake(0), PollBegin, PollEnd(true),
        PollBegin];
    run := [EMPTY, Life(Idle, 1, false, false, false, [0], [], multiset{}),
            Life(Running, 1, true, false, false, [], [0], multiset{}),
            Life(Notified, 1, true, false, true, [], [0], multiset{}),
            Life(Notified, 2, true, false, true, [], [0], multiset{0}),
            Life(Idle, 2, true, false, true, [0], [], multiset{0}),
            Life(Notified, 2, true, false, true, [0, 0], [], multiset{}),
            Life(Running, 2, true, false, false, [0], [0], multiset{}),
            Life(Ready, 1, true, true, false, [0], [], multiset{}),
            Life(Running, 1, true, true, false, [], [0], multiset{})];
    forall i | 0 <= i < |acts|
      ensures Leads(run[i], acts[i], run[i + 1])
    {
    }
  }

  /** The executor in place. Each method is one action. */
  class Tcb {
    var tasks: seq<Task>
    var runq: seq<nat>
    var stack: seq<nat>
    var wakers: multiset<nat>

    ghost function Now(): State
      reads this
    {
      State(tasks, runq, stack, wakers)
    }

    constructor ()
      ensures Now() == EMPTY
    {
      tasks, runq, stack, wakers := [], [], [], multiset{};
    }

    method SetState(t: nat, x: TaskState)
      requires t < |tasks|
      modifies this`tasks
      ensures Now() == WithState(old(Now()), t, x)
    {
      tasks := tasks[t := tasks[t].(state := x)];
    }

    /** Another handle on a task, or one less. */
    method Refer(t: nat, n: int)
      requires t < |tasks|
      modifies this`tasks
      ensures Now() == AddRef(old(Now()), t, n)
    {
      tasks := tasks[t := tasks[t].(strong := tasks[t].strong + n)];
    }

    method PushBack(t: nat)
      requires t < |tasks|
      modifies this`tasks, this`runq
      ensures Now() == Pushed(old(Now()), t)
    {
      Refer(t, 1);
      runq := runq + [t];
    }

    method Spawn() returns (t: nat)
      modifies this
      ensures Now() == Next(old(Now()), Action.Spawn) && t == old(|tasks|) && runq == old(runq) + [t]
    {
      t := |tasks|;
      tasks := tasks + [Task(Idle, 1, false, false, false)];
      runq := runq + [t];
    }

    /** Starts to poll task t; its future runs until `PollEnd`. */
    method Enter(t: nat)
      requires t < |tasks|
      modifies this
      ensures Now() == Entered(old(Now()), t)
    {
      tasks := tasks[t := tasks[t].(state := Running, polled := true, woken := false)];
      stack := stack + [t];
    }

    method SpawnLocal() returns (t: nat)
      modifies this
      ensures Now() == Next(old(Now()), Action.SpawnLocal) && t == old(|tasks|) && runq == old(runq)
    {
      t := |tasks|;
      tasks := tasks + [Task(Idle, 1, false, false, false)];
      Enter(t);
    }

    method PollBegin() returns (t: nat)
      requires Enabled(Now(), Action.PollBegin)
      modifies this
      ensures Now() == Next(old(Now()), Action.PollBegin)
      ensures old(runq) == [t] + runq
      ensures if old(tasks)[t].state == Running then stack == [] else stack == [t] && tasks[t].state == Running
    {
      t := runq[0];
      runq := runq[1..];
      if tasks[t].state == Running {
        Refer(t, -1);
        return;
      }
      Enter(t);
    }

    method PollEnd(ready: bool)
      requires Enabled(Now(), Action.PollEnd(ready))
      modifies this
      ensures Now() == Next(old(Now()), Action.PollEnd(ready))
      ensures var t := old(stack[|stack| - 1]);
              && old(stack) == stack + [t]
              && tasks[t].state == (if ready then Ready else Idle)
              && runq == old(runq) + if !ready && old(tasks)[t].state == Notified then [t] else []
    {
      var t := stack[|stack| - 1];
      if ready {
        tasks := tasks[t := tasks[t].(state := Ready, done := true)];
      } else if tasks[t].state == Notified {
        SetState(t, Idle);
        PushBack(t);
      } else {
        SetState(t, Idle);
      }
      Refer(t, -1);
      stack := stack[..|stack| - 1];
    }

    method WakeTask(t: nat)
      requires t < |tasks|
      modifies this
      ensures Now() == Woken(old(Now()), t)
      ensures runq == old(runq) + if old(tasks)[t].state == Idle then [t] else []
      ensures tasks[t].state == match old(tasks)[t].state
              case Idle => Notified
              case Running => Notified
              case Notified => Notified
              case Ready => Ready
    {
      var state := tasks[t].state;
      tasks := tasks[t := tasks[t].(woken := true)];
      match state
      case Running => SetState(t, Notified);
      case Idle =>
        SetState(t, Notified);
        PushBack(t);
      case Notified =>
      case Ready =>
    }

    method CloneWaker(t: nat)
      requires Enabled(Now(), Action.CloneWaker(t))
      modifies this
      ensures Now() == Next(old(Now()), Action.CloneWaker(t))
      ensures wakers == old(wakers) + multiset{t} && tasks[t].strong == old(tasks)[t].strong + 1
    {
      Refer(t, 1);
      wakers := wakers + multiset{t};
    }

    method DropWaker(t: nat)
      requires Enabled(Now(), Action.DropWaker(t))
      modifies this
      ensures Now() == Next(old(Now()), Action.DropWaker(t))
      ensures wakers == old(wakers) - multiset{t} && tasks[t].strong == old(tasks)[t].strong - 1
    {
      Refer(t, -1);
      wakers := wakers - multiset{t};
    }

    /** Waking through a stored waker uses it up. */
    method Wake(t: nat)
      requires Enabled(Now(), Action.Wake(t))
      modifies this
      ensures Now() == Next(old(Now()), Action.Wake(t))
      ensures wakers == old(wakers) - multiset{t}
      ensures runq == old(runq) + if old(tasks)[t].state == Idle then [t] else []
    {
      WakeTask(t);
      Refer(t, -1);
      wakers := wakers - multiset{t};
    }

    method WakeByRef(t: nat)
      requires Enabled(Now(), Action.WakeByRef(t))
      modifies this
      ensures Now() == Next(old(Now()), Action.WakeByRef(t))
      ensures wakers == old(wakers)
      ensures runq == old(runq) + if old(tasks)[t].state == Idle then [t] else []
    {
      WakeTask(t);
    }
  }
}
