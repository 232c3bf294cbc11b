/** A task that awaits a batch of child I/Os in index order, on the executor of Executor. */
module BatchAwait {
  import opened Executor
  import opened StripeQueues

  /** The context of one child I/O: its completion flag, reported status, and the waker its
      future left behind, if any. */
  class LbdevIoCtx {
    var done: bool
    var success: bool
    var waker: Option<nat>

    ghost function Now(): Ctx
      reads this
    {
      Ctx(done, success, waker.Some?)
    }

    constructor ()
      ensures Now() == Ctx(false, false, false)
    {
      done, success, waker := false, false, None;
    }

    /** The future asks whether the I/O is done, leaving a clone of the polling task's waker
        behind if not; a waker left earlier is dropped. */
    method Poll(tcb: Tcb, t: nat) returns (status: Option<bool>)
      requires t in tcb.stack && t < |tcb.tasks| && (waker.Some? ==> waker.value == t && t in tcb.wakers)
      modifies this`waker, tcb
      ensures status == if old(done) then Some(success) else None
      ensures Now() == Asked(old(Now())) && (waker.Some? && !old(waker).Some? ==> waker.value == t)
      ensures tcb.Now() == AskedExec(old(tcb.Now()), old(Now()), t)
    {
      if done {
        return Some(success);
      }
      tcb.CloneWaker(t);
      if waker.Some? {
        tcb.DropWaker(t);
      }
      waker := Some(t);
      return None;
    }

    /** The completion callback: record the status, then wake whoever waits. */
    method Complete(tcb: Tcb, ok: bool)
      requires waker.Some? ==> waker.value in tcb.wakers && waker.value < |tcb.tasks|
      modifies this, tcb
      ensures done && success == ok && waker.None? && Now() == Ended(ok)
      ensures tcb.Now() == if old(waker).Some? then Next(old(tcb.Now()), Action.Wake(old(waker).value))
              else old(tcb.Now())
    {
      success := ok;
      done := true;
      if waker.Some? {
        tcb.Wake(waker.value);
        waker := None;
      }
    }
  }

  datatype Ctx = Ctx(done: bool, success: bool, waker: bool)

  /** A context whose I/O has reported. */
  function Ended(ok: bool): Ctx { Ctx(true, ok, false) }

  function Asked(c: Ctx): Ctx { if c.done then c else c.(waker := true) }

  function AskedExec(s: State, c: Ctx, t: nat): State
    requires t in s.stack && t < |s.tasks| && (c.waker ==> t in s.wakers)
  {
    if c.done then s
    else
      var cloned := Next(s, Action.CloneWaker(t));
      if c.waker then Next(cloned, Action.DropWaker(t)) else cloned
  }

  /** Task `t` of the executor awaits `ctxs` in order; `got` are the statuses collected so far. */
  datatype Batch = Batch(exec: State, t: nat, ctxs: seq<Ctx>, got: seq<bool>)

  /** The first I/O from `i` on that is not done. */
  function Ahead(ctxs: seq<Ctx>, i: nat): (j: nat)
    requires i <= |ctxs|
    ensures i <= j <= |ctxs| && (forall k | i <= k < j :: ctxs[k].done) && (j < |ctxs| ==> !ctxs[j].done)
    decreases |ctxs| - i
  {
    if i < |ctxs| && ctxs[i].done then Ahead(ctxs, i + 1) else i
  }

  function Statuses(ctxs: seq<Ctx>): (r: seq<bool>)
    ensures |r| == |ctxs| && forall k | 0 <= k < |ctxs| :: r[k] == ctxs[k].success
  {
    if |ctxs| == 0 then [] else Statuses(ctxs[..|ctxs| - 1]) + [ctxs[|ctxs| - 1].success]
  }

  /** Poll the task; run any other executor step; or a child I/O's callback fires. */
  datatype Event = PollTask | Other(a: Action) | Callback(i: nat, ok: bool)

  /** A step of the rest of the thread, which has no waker of this task. */
  predicate Elsewhere(s: State, a: Action, t: nat)
    requires Enabled(s, a)
  {
    match a
    case Spawn => true
    case SpawnLocal => true
    case PollBegin => s.runq[0] != t
    case PollEnd(_) => s.stack[|s.stack| - 1] != t
    case CloneWaker(u) => u != t
    case DropWaker(u) => u != t
    case Wake(u) => u != t
    case WakeByRef(u) => u != t
  }

  predicate Possible(b: Batch, e: Event) {
    match e
    case PollTask => Enabled(b.exec, PollBegin) && b.exec.runq[0] == b.t && |b.got| <= |b.ctxs|
    case Other(a) => Enabled(b.exec, a) && Elsewhere(b.exec, a, b.t)
    case Callback(i, ok) => i < |b.ctxs| && !b.ctxs[i].done && (b.ctxs[i].waker ==> Enabled(b.exec, Action.Wake(b.t)))
  }

  /** One poll of the task: collect what is done, in order; then finish, or wait for the next. */
  function Polled(b: Batch): Batch
    requires Possible(b, PollTask) && Placed(b.exec)
    requires forall i | 0 <= i < |b.ctxs| :: b.ctxs[i].waker ==> b.t in b.exec.wakers
    requires b.exec.tasks[b.t].state != Running
  {
    var begun := Next(b.exec, PollBegin);
    var j := Ahead(b.ctxs, |b.got|);
    var got := b.got + Statuses(b.ctxs[|b.got|..j]);
    assert begun.stack == [b.t];
    if j == |b.ctxs| then Batch(Next(begun, PollEnd(true)), b.t, b.ctxs, got)
    else
      var waiting := AskedExec(begun, b.ctxs[j], b.t);
      Batch(Next(waiting, PollEnd(false)), b.t, b.ctxs[j := Asked(b.ctxs[j])], got)
  }

  function Fired(b: Batch, i: nat, ok: bool): Batch
    requires Possible(b, Callback(i, ok))
  {
    b.(exec := if b.ctxs[i].waker then Next(b.exec, Action.Wake(b.t)) else b.exec,
       ctxs := b.ctxs[i := Ended(ok)])
  }

  /** Every collected status is that of the I/O at its place, which is done; a waker is stored
      just while the task waits, unqueued, for the first I/O not collected. */
  ghost predicate BatchOk(b: Batch) {
    && Placed(b.exec) && b.t < |b.exec.tasks| && b.t !in b.exec.stack
    && |b.got| <= |b.ctxs| && (forall k | 0 <= k < |b.got| :: b.ctxs[k].done && b.got[k] == b.ctxs[k].success)
    && (forall k | 0 <= k < |b.ctxs| && b.ctxs[k].waker :: k == |b.got| && !b.ctxs[k].done)
    && b.exec.wakers[b.t] == (if Waiting(b) then 1 else 0)
    && (if b.exec.tasks[b.t].done then |b.got| == |b.ctxs| && b.t !in b.exec.runq
        else Count(b.exec.runq, b.t) == if Waiting(b) then 0 else 1)
    && (Waiting(b) ==> b.exec.tasks[b.t].state == Idle)
  }

  predicate Waiting(b: Batch) { |b.got| < |b.ctxs| && b.ctxs[|b.got|].waker }

  lemma {:induction false} WokenOther(s: State, u: nat, t: nat)
    requires u < |s.tasks| && t < |s.tasks| && u != t
    ensures Count(Woken(s, u).runq, t) == Count(s.runq, t)
  {
  }

  lemma {:induction false} EndElsewhere(s: State, ready: bool, t: nat)
    requires Enabled(s, PollEnd(ready)) && t < |s.tasks| && t !in s.stack
    ensures t < |PollEndStep(s, ready).tasks| && t !in PollEndStep(s, ready).stack
    ensures PollEndStep(s, ready).tasks[t] == s.tasks[t] && PollEndStep(s, ready).wakers == s.wakers
    ensures Count(PollEndStep(s, ready).runq, t) == Count(s.runq, t)
  {
  }

  /** The state of a task nobody touches. */
  lemma {:induction false} ElsewhereKeeps(s: State, a: Action, t: nat)
    requires Enabled(s, a) && Elsewhere(s, a, t) && t < |s.tasks| && t !in s.stack
    ensures t < |Next(s, a).tasks| && t !in Next(s, a).stack
    ensures Next(s, a).tasks[t] == s.tasks[t] && Next(s, a).wakers[t] == s.wakers[t]
    ensures Count(Next(s, a).runq, t) == Count(s.runq, t)
  {
    hide Count, Woken, PollEndStep;
    match a
    case Spawn => CountPush(s.runq, |s.tasks|, t);
    case SpawnLocal =>
    case PollBegin => CountTail(s.runq, t);
    case PollEnd(ready) => EndElsewhere(s, ready, t);
    case CloneWaker(_) =>
    case DropWaker(_) =>
    case Wake(u) =>
      WokenSame(s, u);
      WokenOther(s, u, t);
    case WakeByRef(u) =>
      WokenSame(s, u);
      WokenOther(s, u, t);
  }

  lemma {:induction false} OtherOk(b: Batch, a: Action)
    requires BatchOk(b) && Possible(b, Other(a))
    ensures BatchOk(b.(exec := Next(b.exec, a)))
  {
    hide Count, Next, Enabled, Elsewhere, Placed;
    StepPlaced(b.exec, a);
    ElsewhereKeeps(b.exec, a, b.t);
    InIffCount(b.exec.runq, Next(b.exec, a).runq, b.t);
  }

  lemma {:induction false} InIffCount(q: seq<nat>, q': seq<nat>, t: nat)
    requires Count(q, t) == Count(q', t)
    ensures t in q <==> t in q'
  {
    CountIn(q, t);
    CountIn(q', t);
  }

  /** A wake of a waiting task queues it. */
  lemma {:induction false} WakeWaiting(s: State, t: nat)
    requires Enabled(s, Action.Wake(t)) && s.tasks[t].state == Idle
    ensures var s' := Next(s, Action.Wake(t));
            && s'.stack == s.stack && |s'.tasks| == |s.tasks| && s'.tasks[t].done == s.tasks[t].done
            && s'.wakers[t] == s.wakers[t] - 1 && Count(s'.runq, t) == Count(s.runq, t) + 1
  {
  }

  lemma {:induction false} CallbackOk(b: Batch, i: nat, ok: bool)
    requires BatchOk(b) && Possible(b, Callback(i, ok))
    ensures BatchOk(Fired(b, i, ok))
  {
    hide Count, Next, Placed, Enabled;
    if b.ctxs[i].waker {
      CountIn(b.exec.runq, b.t);
      StepPlaced(b.exec, Action.Wake(b.t));
      WakeWaiting(b.exec, b.t);
      assert !b.exec.tasks[b.t].done;
    }
  }

  /** One poll of a queued task, seen from outside: off the queue, and Ready or Idle. */
  lemma {:induction false} PollReady(s: State, t: nat)
    requires Placed(s) && Enabled(s, PollBegin) && s.runq[0] == t && s.tasks[t].state != Running
    ensures var begun := Next(s, PollBegin);
            && begun.stack == [t] && |begun.tasks| == |s.tasks| && Enabled(begun, PollEnd(true))
            && var s' := Next(begun, PollEnd(true));
               && s'.stack == [] && |s'.tasks| == |s.tasks| && s'.tasks[t].done
               && s'.wakers == s.wakers && s'.runq == s.runq[1..] && Placed(s')
  {
    StepPlaced(s, PollBegin);
    StepPlaced(Next(s, PollBegin), PollEnd(true));
    hide Placed;
  }

  /** Leaving a waker behind changes no task's state, nor the queue. */
  lemma {:induction false} AskedKeeps(s: State, c: Ctx, t: nat)
    requires Placed(s) && t in s.stack && t < |s.tasks| && !c.done && (c.waker ==> t in s.wakers)
    ensures var s' := AskedExec(s, c, t);
            && Placed(s') && s'.stack == s.stack && s'.runq == s.runq && |s'.tasks| == |s.tasks|
            && s'.tasks[t].state == s.tasks[t].state && s'.tasks[t].done == s.tasks[t].done
            && s'.wakers[t] == s.wakers[t] + if c.waker then 0 else 1
  {
    hide Placed;
    StepPlaced(s, Action.CloneWaker(t));
    if c.waker { StepPlaced(Next(s, Action.CloneWaker(t)), Action.DropWaker(t)); }
  }

  lemma {:induction false} PollStarts(s: State, t: nat)
    requires Placed(s) && Enabled(s, PollBegin) && s.runq[0] == t && s.tasks[t].state != Running
    ensures var begun := Next(s, PollBegin);
            && begun.stack == [t] && Placed(begun) && |begun.tasks| == |s.tasks| && t < |begun.tasks|
            && begun.wakers == s.wakers && begun.runq == s.runq[1..] && begun.tasks[t].done == s.tasks[t].done
            && begun.tasks[t].state == Running
  {
    StepPlaced(s, PollBegin);
    hide Placed;
  }

  lemma {:induction false} PollStops(s: State, t: nat)
    requires Placed(s) && s.stack == [t] && t < |s.tasks| && s.tasks[t].state == Running
    ensures Enabled(s, PollEnd(false))
    ensures var s' := Next(s, PollEnd(false));
            && s'.stack == [] && |s'.tasks| == |s.tasks| && s'.tasks[t].state == Idle && Placed(s')
            && s'.tasks[t].done == s.tasks[t].done && s'.runq == s.runq && s'.wakers == s.wakers
  {
    StepPlaced(s, PollEnd(false));
    hide Placed;
  }

  lemma {:induction false} PollPending(s: State, c: Ctx, t: nat)
    requires Placed(s) && Enabled(s, PollBegin) && s.runq[0] == t && s.tasks[t].state != Running
    requires !c.done && (c.waker ==> t in s.wakers)
    ensures var begun := Next(s, PollBegin);
            && begun.stack == [t] && t < |begun.tasks| && begun.wakers == s.wakers
            && var waiting := AskedExec(begun, c, t);
               && Enabled(waiting, PollEnd(false))
               && var s' := Next(waiting, PollEnd(false));
                  && s'.stack == [] && |s'.tasks| == |s.tasks| && s'.tasks[t].state == Idle
                  && s'.tasks[t].done == s.tasks[t].done && s'.runq == s.runq[1..] && Placed(s')
                  && s'.wakers[t] == s.wakers[t] + if c.waker then 0 else 1
  {
    hide Placed, AskedExec, Next, Enabled;
    PollStarts(s, t);
    AskedKeeps(Next(s, PollBegin), c, t);
    PollStops(AskedExec(Next(s, PollBegin), c, t), t);
  }

  /** A queued task of a batch that is well can be polled. */
  lemma {:induction false} Pollable(b: Batch)
    requires BatchOk(b) && Possible(b, PollTask)
    ensures b.exec.tasks[b.t].state != Running && !b.exec.tasks[b.t].done && !Waiting(b)
    ensures forall i | 0 <= i < |b.ctxs| :: !b.ctxs[i].waker
  {
    hide Count;
    assert b.t in b.exec.runq;
    CountIn(b.exec.runq, b.t);
  }

  /** The task as one poll left it, with the first |got| statuses collected. */
  lemma {:induction false} AfterPoll(b: Batch, b': Batch, j: nat)
    requires BatchOk(b) && Possible(b, PollTask) && b'.t == b.t && j == Ahead(b.ctxs, |b.got|)
    requires Placed(b'.exec) && b'.exec.stack == [] && |b'.exec.tasks| == |b.exec.tasks|
    requires b'.exec.runq == b.exec.runq[1..] && b'.got == b.got + Statuses(b.ctxs[|b.got|..j])
    requires if j == |b.ctxs| then b'.exec.tasks[b.t].done && b'.exec.wakers == b.exec.wakers && b'.ctxs == b.ctxs
             else !b'.exec.tasks[b.t].done && b'.exec.tasks[b.t].state == Idle
                  && b'.exec.wakers[b.t] == b.exec.wakers[b.t] + 1 && b'.ctxs == b.ctxs[j := b.ctxs[j].(waker := true)]
    ensures BatchOk(b')
  {
    hide Count, Next, Placed, Ahead;
    Pollable(b);
    CountTail(b.exec.runq, b.t);
    CountIn(b.exec.runq[1..], b.t);
    CountOnce(b);
  }

  lemma {:induction false} CountOnce(b: Batch)
    requires BatchOk(b) && Possible(b, PollTask)
    ensures Count(b.exec.runq, b.t) == 1
  {
    hide Count;
    Pollable(b);
  }

  lemma {:induction false} PollOk(b: Batch)
    requires BatchOk(b) && Possible(b, PollTask)
    ensures b.exec.tasks[b.t].state != Running && forall i | 0 <= i < |b.ctxs| :: !b.ctxs[i].waker
    ensures BatchOk(Polled(b))
  {
    Pollable(b);
    var j := Ahead(b.ctxs, |b.got|);
    if j == |b.ctxs| {
      PollReady(b.exec, b.t);
    } else {
      PollPending(b.exec, b.ctxs[j], b.t);
    }
    hide Count, Next, Placed, Enabled, AskedExec, BatchOk, Waiting, Ahead;
    AfterPoll(b, Polled(b), j);
  }

  /** Freshly spawned, with every child I/O submitted; some may have failed on submission. */
  ghost predicate Fresh(b: Batch) {
    && Placed(b.exec) && b.t < |b.exec.tasks| && b.t !in b.exec.stack && b.exec.wakers[b.t] == 0
    && Count(b.exec.runq, b.t) == 1 && !b.exec.tasks[b.t].done
    && b.got == [] && forall k | 0 <= k < |b.ctxs| :: !b.ctxs[k].waker && (b.ctxs[k].done ==> !b.ctxs[k].success)
  }

  /** A task spawned on any executor, in any state of a run, may await any number of I/Os, any of
      which may have failed on submission. */
  lemma {:induction false} SpawnedIsFresh(run: seq<State>, acts: seq<Action>, n: nat, failed: seq<bool>, ctxs: seq<Ctx>)
    requires IsRun(run, acts) && n < |run| && |ctxs| == |failed|
    requires forall k | 0 <= k < |ctxs| :: ctxs[k] == Ctx(failed[k], false, false)
    ensures Fresh(Batch(Next(run[n], Action.Spawn), |run[n].tasks|, ctxs, []))
  {
    RunWakes(run, acts, n);
    var s := run[n];
    StepPlaced(s, Action.Spawn);
    CountIn(s.runq, |s.tasks|);
    CountPush(s.runq, |s.tasks|, |s.tasks|);
  }

  ghost predicate Follows(b: Batch, e: Event, b': Batch)
    requires BatchOk(b) && Possible(b, e)
  {
    match e
    case PollTask => PollOk(b); b' == Polled(b)
    case Other(a) => b' == b.(exec := Next(b.exec, a))
    case Callback(i, ok) => b' == Fired(b, i, ok)
  }

  lemma {:induction false} FollowsOk(b: Batch, e: Event, b': Batch)
    requires BatchOk(b) && Possible(b, e) && Follows(b, e, b')
    ensures BatchOk(b') && b'.t == b.t && |b'.ctxs| == |b.ctxs|
    ensures forall k | 0 <= k < |b.ctxs| && b.ctxs[k].done :: b'.ctxs[k].done && b'.ctxs[k].success == b.ctxs[k].success
  {
    hide BatchOk, Next, Placed, Enabled, AskedExec, Count;
    match e
    case PollTask => PollOk(b);
    case Other(a) => OtherOk(b, a);
    case Callback(i, ok) => CallbackOk(b, i, ok);
  }

  /** A run from a fresh batch: each event can happen, and the next state is what it makes. */
  ghost predicate BatchRun(run: seq<Batch>, events: seq<Event>) {
    && |run| == |events| + 1 && Fresh(run[0])
    && (forall i | 0 <= i < |events| :: Possible(run[i], events[i]))
    && (forall i | 0 <= i < |events| :: BatchOk(run[i]) ==> Follows(run[i], events[i], run[i + 1]))
  }

  lemma {:induction false} RunOk(run: seq<Batch>, events: seq<Event>, n: nat)
    requires BatchRun(run, events) && n < |run|
    ensures BatchOk(run[n]) && |run[n].ctxs| == |run[0].ctxs| && run[n].t == run[0].t
    decreases n
  {
    if n == 0 {
      hide Count, Placed, Follows, Possible;
      CountIn(run[0].exec.runq, run[0].t);
    } else {
      hide BatchOk, Follows, Possible, Fresh;
      RunOk(run, events, n - 1);
      FollowsOk(run[n - 1], events[n - 1], run[n]);
    }
  }

  /** By state n child I/O k has reported `ok`: it failed on submission, or its callback said so. */
  ghost predicate Reports(run: seq<Batch>, events: seq<Event>, n: nat, k: nat, ok: bool)
    requires 0 < |run| && n <= |events| && k < |run[0].ctxs|
  {
    || (run[0].ctxs[k].done && !ok)
    || exists m :: 0 <= m < n && events[m] == Callback(k, ok)
  }

  /** What one event does to context k. */
  lemma {:induction false} ContextStep(b: Batch, e: Event, b': Batch, k: nat)
    requires BatchOk(b) && Possible(b, e) && Follows(b, e, b') && k < |b.ctxs|
    ensures |b'.ctxs| == |b.ctxs|
    ensures if e == Callback(k, true) || e == Callback(k, false) then
              !b.ctxs[k].done && b'.ctxs[k].done && b'.ctxs[k].success == e.ok
            else b'.ctxs[k].done == b.ctxs[k].done && b'.ctxs[k].success == b.ctxs[k].success
  {
    hide BatchOk, Next, Placed, Enabled, AskedExec, Count;
    if e.PollTask? { PollOk(b); }
  }

  /** A context holds a status exactly if its I/O has reported it. */
  lemma {:induction false} HoldsReported(run: seq<Batch>, events: seq<Event>, n: nat, k: nat, ok: bool)
    requires BatchRun(run, events) && n < |run| && k < |run[0].ctxs|
    ensures |run[n].ctxs| == |run[0].ctxs|
    ensures run[n].ctxs[k].done && run[n].ctxs[k].success == ok <==> Reports(run, events, n, k, ok)
    decreases n
  {
    RunOk(run, events, n);
    if n > 0 {
      hide BatchOk, Follows, Possible;
      RunOk(run, events, n - 1);
      HoldsReported(run, events, n - 1, k, ok);
      HoldsReported(run, events, n - 1, k, !ok);
      ContextStep(run[n - 1], events[n - 1], run[n], k);
      ReportsMore(run, events, n, k, ok);
    }
  }

  lemma {:induction false} ReportsMore(run: seq<Batch>, events: seq<Event>, n: nat, k: nat, ok: bool)
    requires 0 < |run| && 0 < n <= |events| && k < |run[0].ctxs|
    ensures Reports(run, events, n, k, ok) <==> Reports(run, events, n - 1, k, ok) || events[n - 1] == Callback(k, ok)
  {
  }

  /** At any moment any child I/O that has not reported may do so, either way. */
  lemma {:induction false} AnyMayReport(run: seq<Batch>, events: seq<Event>, n: nat, k: nat, ok: bool)
    requires BatchRun(run, events) && n < |run| && k < |run[0].ctxs|
    requires !Reports(run, events, n, k, true) && !Reports(run, events, n, k, false)
    ensures Possible(run[n], Callback(k, ok))
  {
    RunOk(run, events, n);
    HoldsReported(run, events, n, k, true);
    HoldsReported(run, events, n, k, false);
    hide Count, Placed, BatchRun, Reports;
  }

  /** Whatever the order of completions and polls, the task collects exactly the status each
      child I/O reported, in index order, and is never stuck: once all have reported it has
      finished with all of them, or is in the run queue. */
  lemma {:induction false} CollectsAll(run: seq<Batch>, events: seq<Event>, n: nat)
    requires BatchRun(run, events) && n < |run|
    ensures var b := run[n];
            && |b.got| <= |b.ctxs| == |run[0].ctxs|
            && (forall k | 0 <= k < |b.got| ::
                  Reports(run, events, n, k, b.got[k]) && !Reports(run, events, n, k, !b.got[k]))
            && b.t < |b.exec.tasks| && (b.exec.tasks[b.t].done ==> |b.got| == |b.ctxs|)
            && ((forall k | 0 <= k < |b.ctxs| :: Reports(run, events, n, k, true) || Reports(run, events, n, k, false))
                ==> b.exec.tasks[b.t].done || b.t in b.exec.runq)
  {
    RunOk(run, events, n);
    hide Count, Placed, BatchRun, Reports;
    CountIn(run[n].exec.runq, run[n].t);
    forall k | 0 <= k < |run[n].got|
      ensures Reports(run, events, n, k, run[n].got[k]) && !Reports(run, events, n, k, !run[n].got[k])
    {
      HoldsReported(run, events, n, k, run[n].got[k]);
      HoldsReported(run, events, n, k, !run[n].got[k]);
    }
    forall k | 0 <= k < |run[n].ctxs| && (Reports(run, events, n, k, true) || Reports(run, events, n, k, false))
      ensures run[n].ctxs[k].done
    {
      HoldsReported(run, events, n, k, Reports(run, events, n, k, true));
    }
  }

  /** And its next poll then finishes it. */
  lemma {:induction false} LastPollFinishes(b: Batch)
    requires BatchOk(b) && Possible(b, PollTask) && forall k | 0 <= k < |b.ctxs| :: b.ctxs[k].done
    ensures b.exec.tasks[b.t].state != Running && forall i | 0 <= i < |b.ctxs| :: !b.ctxs[i].waker
    ensures Polled(b).exec.tasks[b.t].done && Polled(b).got == Statuses(b.ctxs)
  {
    PollOk(b);
    PollReady(b.exec, b.t);
    hide Count, Placed, Next, Enabled;
    assert Ahead(b.ctxs, |b.got|) == |b.ctxs|;
  }
}
