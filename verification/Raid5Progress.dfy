/** Progress: a request costs a bounded number of steps, so that a run without new requests
    ends, and it ends with every request completed. */
module Raid5Progress {
  import opened XorAlgebra
  import opened Geometry
  import opened Strips
  import opened Parity
  import opened StripeQueues
  import opened Raid5Machine
  import opened Raid5Shape
  import opened Raid5Order
  import opened Raid5Data
  import opened Raid5Refinement
  import opened Raid5Faults
  import opened LogicalArray
  import opened Raid5Theorems

  function PendingIos(ios: seq<ChildIo>): (n: nat)
    ensures n <= |ios|
    ensures AllDone(ios) ==> n == 0
  {
    if |ios| == 0 then 0
    else
      assert AllDone(ios) ==> AllDone(ios[..|ios| - 1]);
      PendingIos(ios[..|ios| - 1]) + if ios[|ios| - 1].out.Pending? then 1 else 0
  }

  lemma {:induction false} OneLessPending(ios: seq<ChildIo>, i: nat, io: ChildIo)
    requires i < |ios| && ios[i].out.Pending? && io.out.Done?
    ensures PendingIos(ios[i := io]) == PendingIos(ios) - 1
    decreases |ios|
  {
    var n := |ios| - 1;
    if i < n {
      OneLessPending(ios[..n], i, io);
      assert ios[i := io][..n] == ios[..n][i := io];
    } else {
      assert ios[i := io][..n] == ios[..n];
    }
  }

  /** How many more batches of child I/O may follow the current one. */
  function Rank(phase: Phase): nat {
    match phase
    case ReadWait => 1
    case ReadRepair(_, _) => 0
    case RmwRead => 2
    case RmwRepair(_, _) => 1
    case WriteWait => 0
  }

  /** Steps a request in hand may still take. */
  function Left(g: Geo, phase: Phase, ios: seq<ChildIo>): nat {
    Rank(phase) * (g.ndisks + 2) + PendingIos(ios) + 2
  }

  function Most(g: Geo): (m: nat)
    ensures m >= 6
  {
    3 * (g.ndisks + 2)
  }

  /** What a task weighs; a request in hand has used up part of its own share. */
  function TaskWork(g: Geo, task: Task): int {
    match task.pc
    case AtDequeue => 2
    case Busy(_, _, _, phase, ios) => 1 + Left(g, phase, ios) - Most(g)
    case Finished => 0
  }

  function TasksWork(g: Geo, ts: seq<Task>): int {
    if |ts| == 0 then 0 else TasksWork(g, ts[..|ts| - 1]) + TaskWork(g, ts[|ts| - 1])
  }

  lemma {:induction false} TasksUpdate(g: Geo, ts: seq<Task>, t: nat, task: Task)
    requires t < |ts|
    ensures TasksWork(g, ts[t := task]) == TasksWork(g, ts) - TaskWork(g, ts[t]) + TaskWork(g, task)
    decreases |ts|
  {
    hide TaskWork;
    var n := |ts| - 1;
    if t < n {
      TasksUpdate(g, ts[..n], t, task);
      assert ts[t := task][..n] == ts[..n][t := task];
    } else {
      assert ts[t := task][..n] == ts[..n];
    }
  }

  lemma {:induction false} TasksPush(g: Geo, ts: seq<Task>, task: Task)
    ensures TasksWork(g, ts + [task]) == TasksWork(g, ts) + TaskWork(g, task)
  {
  }

  lemma {:induction false} TasksAtLeast(g: Geo, ts: seq<Task>)
    ensures TasksWork(g, ts) >= -(Most(g) * |ts|)
    decreases |ts|
  {
    if |ts| > 0 {
      TasksAtLeast(g, ts[..|ts| - 1]);
      assert Most(g) * |ts| == Most(g) * (|ts| - 1) + Most(g);
    }
  }

  function Messages(qs: seq<seq<Msg>>): nat {
    if |qs| == 0 then 0 else Messages(qs[..|qs| - 1]) + |qs[|qs| - 1]|
  }

  lemma {:induction false} MessagesUpdate(qs: seq<seq<Msg>>, w: nat, q: seq<Msg>)
    requires w < |qs|
    ensures Messages(qs[w := q]) == Messages(qs) - |qs[w]| + |q|
    decreases |qs|
  {
    var n := |qs| - 1;
    if w < n {
      MessagesUpdate(qs[..n], w, q);
      assert qs[w := q][..n] == qs[..n][w := q];
    } else {
      assert qs[w := q][..n] == qs[..n];
    }
  }

  /** What is left to do, weighted so that every step but a new request lowers it. */
  function Work(g: Geo, s: State): int {
    Most(g) * (|s.submitted| - |s.log|) + 5 * Messages(s.ring) + 4 * Messages(s.runq) + TasksWork(g, s.tasks)
    + if s.dead.None? then 1 else 0
  }

  lemma {:induction false} SubmitWork(g: Geo, s: State, r: Req)
    requires g.Valid() && Enabled(g, s, Submit(r))
    ensures Work(g, SubmitStep(g, s, r)) == Work(g, s) + Most(g) + 5
  {
    var w := g.Owner(StripeOf(g, r));
    hide StripeOf, ValidReq;
    MessagesUpdate(s.ring, w, s.ring[w] + [Submitted(r)]);
    MulOneMore(Most(g), |s.submitted| - |s.log|);
  }

  lemma {:induction false} MulOneMore(a: int, b: int)
    ensures a * (b + 1) == a * b + a && a * (b - 1) == a * b - a
  {
  }

  lemma {:induction false} MessageWork(g: Geo, s: State, a: Action)
    requires g.Valid() && Inv(g, s) && Enabled(g, s, a) && (a.Deliver? || a.Poll?)
    ensures Work(g, Next(g, s, a)) < Work(g, s)
  {
    hide Orderly, StripeOf, ValidReq, TaskOk;
    if a.Deliver? {
      MessagesUpdate(s.ring, a.w, s.ring[a.w][1..]);
      MessagesUpdate(s.runq, a.w, s.runq[a.w] + [s.ring[a.w][0]]);
    } else {
      MessagesUpdate(s.runq, a.w, s.runq[a.w][1..]);
      if s.runq[a.w][0].Submitted? {
        TasksPush(g, s.tasks, Task(a.w, StripeOf(g, s.runq[a.w][0].req), AtDequeue));
      }
    }
  }

  /** A stretch of code ends in less work if a batch it starts is a lower-ranked one. */
  lemma {:induction false} SettleWork(g: Geo, s: State, s': State, t: nat, r: Req, began: Option<nat>, o: Outlook)
    requires t < |s.tasks| && !o.Panic? && s' == Settle(s.(chans := s'.chans), t, r, began, o)
    requires o.Await? ==> TaskWork(g, s.tasks[t]) > 1 + Left(g, o.phase, o.ios) - Most(g)
    requires o.Complete? ==> TaskWork(g, s.tasks[t]) > 2 - Most(g)
    ensures Work(g, s') < Work(g, s)
  {
    hide Left, Most;
    match o
    case Await(phase, ios) =>
      TasksUpdate(g, s.tasks, t, s.tasks[t].(pc := Busy(r, began, LostBy(s.tasks[t].pc), phase, ios)));
    case Complete(_, _) =>
      TasksUpdate(g, s.tasks, t, s.tasks[t].(pc := AtDequeue));
      MulOneMore(Most(g), |s.submitted| - |s.log|);
  }

  /** No batch has more child I/Os than there are disks. */
  lemma {:induction false} BeginShort(g: Geo, stripe: nat, r: Req)
    requires g.Valid() && ReqOk(g, stripe, r)
    ensures var o := Begin(g, stripe, r);
            !o.Panic? && (o.Await? ==> |o.ios| <= g.ndisks && Rank(o.phase) <= 2)
  {
    hide Segs, SegReads, XorAll, Pieces, Planned, StripeOf;
    BeginOk(g, stripe, r);
    if InOneStripe(g, r) { PlannedReq(g, r); }
  }

  lemma {:induction false} ResumeShort(g: Geo, stripe: nat, r: Req, phase: Phase, ios: seq<ChildIo>)
    requires g.Valid() && BusyOk(g, stripe, r, phase, ios)
    requires if phase.ReadRepair? || phase.RmwRepair? then RepairSettled(ios) else AllDone(ios)
    ensures var o := Resume(g, stripe, r, phase, ios);
            !o.Panic? && (o.Await? ==> |o.ios| <= g.ndisks && Rank(o.phase) < Rank(phase))
  {
    hide Segs, SegWrites, RepairReads, Datas, Failures, XorAll, Position, Rmw, Fitting, PhaseOk;
    ResumeOk(g, stripe, r, phase, ios);
    PlannedReq(g, r);
  }

  lemma {:induction false} LeftDrops(g: Geo, phase: Phase, ios: seq<ChildIo>, phase': Phase, ios': seq<ChildIo>)
    requires |ios'| <= g.ndisks && Rank(phase') < Rank(phase)
    ensures Left(g, phase', ios') < Left(g, phase, ios)
  {
  }

  lemma {:induction false} LeftAtMost(g: Geo, phase: Phase, ios: seq<ChildIo>)
    requires |ios| <= g.ndisks && Rank(phase) <= 2
    ensures Left(g, phase, ios) <= Most(g)
  {
  }

  lemma {:induction false} DequeueWork(g: Geo, s: State, t: nat)
    requires g.Valid() && Inv(g, s) && Enabled(g, s, Dequeue(t))
    ensures Work(g, DequeueStep(g, s, t)) < Work(g, s)
  {
    hide Inv, Begin, Left, Most, ReqOk, StripeOf, OnlyBusy, DequeueStep, DisksOk;
    DequeueNext(g, s, t);
    var s', q, stripe := DequeueStep(g, s, t), Queued(g, s, s.tasks[t].stripe), s.tasks[t].stripe;
    if q == [] {
      TasksUpdate(g, s.tasks, t, s.tasks[t].(pc := Finished));
    } else {
      var o := Begin(g, stripe, q[0]);
      BeginShort(g, stripe, q[0]);
      if o.Await? { LeftAtMost(g, o.phase, o.ios); }
      SettleWork(g, s, s', t, q[0], s.dead, o);
    }
  }

  lemma {:induction false} AdvanceWork(g: Geo, s: State, t: nat)
    requires g.Valid() && Inv(g, s) && Enabled(g, s, Advance(t))
    ensures Work(g, AdvanceStep(g, s, t)) < Work(g, s)
  {
    hide Inv, Resume, Most, Left, BusyOk, RepairSettled, AllDone;
    BusyAlone(g, s, t);
    var pc, stripe := s.tasks[t].pc, s.tasks[t].stripe;
    ResumeShort(g, stripe, pc.req, pc.phase, pc.ios);
    var o := Resume(g, stripe, pc.req, pc.phase, pc.ios);
    assert Left(g, pc.phase, pc.ios) >= 2 by { LeftPositive(g, pc.phase, pc.ios); }
    if o.Await? { LeftDrops(g, pc.phase, pc.ios, o.phase, o.ios); }
    SettleWork(g, s, AdvanceStep(g, s, t), t, pc.req, pc.began, o);
  }

  lemma {:induction false} LeftPositive(g: Geo, phase: Phase, ios: seq<ChildIo>)
    ensures Left(g, phase, ios) >= 2
  {
  }

  lemma {:induction false} BusyAlone(g: Geo, s: State, t: nat)
    requires g.Valid() && Inv(g, s) && t < |s.tasks| && s.tasks[t].pc.Busy?
    ensures BusyOk(g, s.tasks[t].stripe, s.tasks[t].pc.req, s.tasks[t].pc.phase, s.tasks[t].pc.ios)
  {
    hide Inv, BusyOk;
    BusyEntry(g, s, t);
  }

  lemma {:induction false} EffectWork(g: Geo, s: State, t: nat, i: nat, ok: bool, junk: Bytes)
    requires g.Valid() && Enabled(g, s, Effect(t, i, ok, junk))
    ensures Work(g, EffectStep(g, s, t, i, ok, junk)) < Work(g, s)
  {
    hide Most, Splice, InRange, PendingIos;
    var s', pc := EffectStep(g, s, t, i, ok, junk), s.tasks[t].pc;
    OneLessPending(pc.ios, i, s'.tasks[t].pc.ios[i]);
    TasksUpdate(g, s.tasks, t, s'.tasks[t]);
    assert s'.tasks == s.tasks[t := s'.tasks[t]];
  }

  lemma {:induction false} StepWork(g: Geo, s: State, a: Action)
    requires g.Valid() && Inv(g, s) && Enabled(g, s, a)
    ensures if a.Submit? then Work(g, Next(g, s, a)) == Work(g, s) + Most(g) + 5
            else Work(g, Next(g, s, a)) < Work(g, s)
  {
    hide Inv, Most, DequeueStep, AdvanceStep, EffectStep, PollStep, DeliverStep, SubmitStep;
    match a
    case Submit(r) =>
      hide Work;
      SubmitWork(g, s, r);
    case Deliver(w) =>
      hide Work;
      MessageWork(g, s, a);
    case Poll(w) =>
      hide Work;
      MessageWork(g, s, a);
    case Dequeue(t) =>
      hide Work;
      DequeueWork(g, s, t);
    case Effect(t, i, ok, junk) =>
      hide Work;
      EffectWork(g, s, t, i, ok, junk);
    case Advance(t) =>
      hide Work;
      AdvanceWork(g, s, t);
    case Die(d) =>
  }

  /** What a run has cost so far is covered by the requests submitted. */
  lemma {:induction false} RunWork(g: Geo, run: seq<State>, acts: seq<Action>, n: nat)
    requires g.Valid() && IsRun(g, run, acts) && n < |run|
    ensures Work(g, run[n]) + n <= 5 * g.workers + 1 + (Most(g) + 6) * |run[n].submitted|
    decreases n
  {
    hide Work, Next, Enabled, Most, Initial;
    if n == 0 {
      InitialWork(g, run[0]);
    } else {
      RunWork(g, run, acts, n - 1);
      RunInv(g, run, acts, n - 1);
      StepWork(g, run[n - 1], acts[n - 1]);
      SubmittedOnly(g, run[n - 1], acts[n - 1]);
      MulOneMore(Most(g) + 6, |run[n - 1].submitted|);
    }
  }

  lemma {:induction false} InitialWork(g: Geo, s: State)
    requires g.Valid() && Initial(g, s)
    ensures Work(g, s) == 5 * g.workers + 1 && s.submitted == []
  {
    OneEach(s.ring);
    NoneQueued(s.runq);
  }

  lemma {:induction false} OneEach(qs: seq<seq<Msg>>)
    requires forall w | 0 <= w < |qs| :: |qs[w]| == 1
    ensures Messages(qs) == |qs|
    decreases |qs|
  {
    if |qs| > 0 { OneEach(qs[..|qs| - 1]); }
  }

  lemma {:induction false} NoneQueued(qs: seq<seq<Msg>>)
    requires forall w | 0 <= w < |qs| :: qs[w] == []
    ensures Messages(qs) == 0
    decreases |qs|
  {
    if |qs| > 0 { NoneQueued(qs[..|qs| - 1]); }
  }

  /** Tasks are made from messages only. */
  lemma {:induction false} TasksFew(g: Geo, run: seq<State>, acts: seq<Action>, n: nat)
    requires g.Valid() && IsRun(g, run, acts) && n < |run|
    ensures |run[n].tasks| + Messages(run[n].ring) + Messages(run[n].runq) <= |run[n].submitted| + g.workers
    decreases n
  {
    hide Next, Enabled, Initial, Messages;
    if n == 0 {
      assert Messages(run[0].ring) + Messages(run[0].runq) == g.workers && run[0].tasks == [] by {
        InitialMessages(g, run[0]);
      }
    } else {
      TasksFew(g, run, acts, n - 1);
      RunInv(g, run, acts, n - 1);
      StepTasks(g, run[n - 1], acts[n - 1]);
    }
  }

  lemma {:induction false} InitialMessages(g: Geo, s: State)
    requires g.Valid() && Initial(g, s)
    ensures Messages(s.ring) + Messages(s.runq) == g.workers && s.tasks == []
  {
    OneEach(s.ring);
    NoneQueued(s.runq);
  }

  lemma {:induction false} StepTasks(g: Geo, s: State, a: Action)
    requires g.Valid() && Inv(g, s) && Enabled(g, s, a)
    ensures var s' := Next(g, s, a);
            |s'.tasks| + Messages(s'.ring) + Messages(s'.runq) - |s'.submitted|
            <= |s.tasks| + Messages(s.ring) + Messages(s.runq) - |s.submitted|
  {
    hide Orderly, Messages, StripeOf, ValidReq, Enqueued, Dequeued, Begin, Resume;
    match a
    case Submit(r) => MessagesUpdate(s.ring, g.Owner(StripeOf(g, r)), s.ring[g.Owner(StripeOf(g, r))] + [Submitted(r)]);
    case Deliver(w) =>
      MessagesUpdate(s.ring, w, s.ring[w][1..]);
      MessagesUpdate(s.runq, w, s.runq[w] + [s.ring[w][0]]);
    case Poll(w) => MessagesUpdate(s.runq, w, s.runq[w][1..]);
    case Dequeue(_) =>
    case Effect(_, _, _, _) =>
    case Advance(_) =>
    case Die(_) =>
  }

  lemma {:induction false} DistinctBelow(xs: seq<nat>, n: nat)
    requires (forall i | 0 <= i < |xs| :: xs[i] < n) && (forall i, j | 0 <= i < j < |xs| :: xs[i] != xs[j])
    ensures |xs| <= n
    decreases n
  {
    if |xs| > 0 {
      assert xs[0] < n;
      if k :| 0 <= k < |xs| && xs[k] == n - 1 {
        DistinctBelow(xs[..k] + xs[k + 1..], n - 1);
      } else {
        DistinctBelow(xs, n - 1);
      }
    }
  }

  function Ids(log: seq<Completion>): (r: seq<nat>)
    ensures |r| == |log| && forall i | 0 <= i < |log| :: r[i] == log[i].req.id
  {
    if |log| == 0 then [] else Ids(log[..|log| - 1]) + [log[|log| - 1].req.id]
  }

  lemma {:induction false} LogShort(g: Geo, run: seq<State>, acts: seq<Action>, n: nat)
    requires g.Valid() && IsRun(g, run, acts) && n < |run|
    ensures |run[n].log| <= |run[n].submitted|
  {
    hide IsRun, Ids, Only, Completed;
    var log := run[n].log;
    forall i | 0 <= i < |log|
      ensures Ids(log)[i] < |run[n].submitted|
    {
      CompletedInOrder(g, run, acts, n, i);
    }
    forall i, j | 0 <= i < j < |log|
      ensures Ids(log)[i] != Ids(log)[j]
    {
      CompletedOnce(g, run, acts, n, i, j);
    }
    DistinctBelow(Ids(log), |run[n].submitted|);
  }

  /** A bound on the length of a run with k requests. */
  function Bound(g: Geo, k: nat): nat {
    5 * g.workers + 1 + (Most(g) + 6) * k + Most(g) * (k + g.workers)
  }

  /** Whatever fails, a run is no longer than its requests and disks allow: none can keep the
      array busy for ever. */
  lemma {:induction false} RunsEnd(g: Geo, run: seq<State>, acts: seq<Action>)
    requires g.Valid() && IsRun(g, run, acts)
    ensures |acts| <= Bound(g, |run[|acts|].submitted|)
  {
    var n, s := |acts|, run[|acts|];
    hide IsRun, Most, Bound;
    RunWork(g, run, acts, n);
    TasksFew(g, run, acts, n);
    LogShort(g, run, acts, n);
    WorkAtLeast(g, s);
    hide Work, Messages;
    BoundIs(g, |s.submitted|, |s.tasks|);
  }

  lemma {:induction false} WorkAtLeast(g: Geo, s: State)
    requires |s.log| <= |s.submitted|
    ensures Work(g, s) >= -(Most(g) * |s.tasks|)
  {
    hide Most, TasksWork, Messages;
    TasksAtLeast(g, s.tasks);
    MulMono(0, |s.submitted| - |s.log|, Most(g));
  }

  lemma {:induction false} BoundIs(g: Geo, k: nat, tasks: nat)
    requires tasks <= k + g.workers
    ensures 5 * g.workers + 1 + (Most(g) + 6) * k + Most(g) * tasks <= Bound(g, k)
  {
  }

  /** `run'` continues `run` without new requests and without another disk dying. */
  ghost predicate Continues(run: seq<State>, acts: seq<Action>, run': seq<State>, acts': seq<Action>) {
    && acts <= acts' && |run| == |acts| + 1 && |run'| == |acts'| + 1 && run'[..|run|] == run
    && forall i | |acts| <= i < |acts'| :: !acts'[i].Submit? && !acts'[i].Die?
  }

  /** Every run can be continued, by steps that are always possible, until nothing is under
      way; then all requests are completed (QuietStripe, QuietArray). And however it is
      continued without new requests, it stops there after finitely many steps (RunsEnd). */
  lemma {:induction false} RunsToQuiet(g: Geo, run: seq<State>, acts: seq<Action>)
    returns (run': seq<State>, acts': seq<Action>)
    requires g.Valid() && IsRun(g, run, acts)
    ensures Continues(run, acts, run', acts') && IsRun(g, run', acts')
    ensures forall x: nat | x < g.Stripes() && BenignRun(g, run, acts, x) :: BenignRun(g, run', acts', x)
    ensures forall x: nat | SparedRun(g, run, acts, x) :: SparedRun(g, run', acts', x)
    ensures Quiet(run'[|acts'|]) && run'[|acts'|].submitted == run[|acts|].submitted
    decreases Bound(g, |run[|acts|].submitted|) - |acts|
  {
    hide Bound, Quiet, Enabled, Next, Initial, Benign, Strains, Spares, BenignRun, SparedRun;
    RunsEnd(g, run, acts);
    if Quiet(run[|acts|]) {
      run', acts' := run, acts;
    } else {
      var a := NeverStuck(g, run, acts, |acts|);
      var longer, more := run + [Next(g, run[|acts|], a)], acts + [a];
      SubmittedOnly(g, run[|acts|], a);
      RunPush(g, run, acts, a);
      RunsEnd(g, longer, more);
      run', acts' := RunsToQuiet(g, longer, more);
      assert run'[..|run|] == run'[..|longer|][..|run|];
    }
  }

  lemma {:induction false} RunPush(g: Geo, run: seq<State>, acts: seq<Action>, a: Action)
    requires g.Valid() && IsRun(g, run, acts) && Enabled(g, run[|acts|], a)
    requires forall x: nat ::
               Benign(g, run[|acts|], a, x) && !Strains(g, run[|acts|], a, x) && Spares(g, run[|acts|], a, x)
    ensures var longer, more := run + [Next(g, run[|acts|], a)], acts + [a];
            && IsRun(g, longer, more)
            && (forall x: nat | x < g.Stripes() && BenignRun(g, run, acts, x) :: BenignRun(g, longer, more, x))
            && (forall x: nat | SparedRun(g, run, acts, x) :: SparedRun(g, longer, more, x))
  {
    hide Enabled, Next, Initial, Benign, ConsistentBy, Strains, Spares;
  }
}
