/** What failed child I/O does to the answers, for every run and every pattern of failures: a
    request survives one failed child read and no second, a write none of its own. */
module Raid5Faults {
  import opened XorAlgebra
  import opened Geometry
  import opened Strips
  import opened Parity
  import opened StripeQueues
  import opened Raid5Machine
  import opened Raid5Shape
  import opened Raid5Order
  import opened Raid5Data
  import opened Raid5Refinement

  // Any failures at all.

  /** How a request ends, given what its child I/Os reported. */
  predicate Policy(g: Geo, c: Completion)
    requires g.Valid()
  {
    if !Undivided(g, c.req) then c.status == Failure && c.lost == 0 && c.wrote.None?
    else
      match c.req.kind
      case Read => c.wrote.None? && (c.status == Failure <==> c.lost >= 2)
      case Write(_) => (c.wrote.None? <==> c.lost >= 2) && (c.status == Success <==> c.wrote == Some(0))
      case Flush => c.status == Success && c.lost == 0 && c.wrote.None?
      case Other => c.status == Failure && c.lost == 0 && c.wrote.None?
  }

  /** The reads lost before the batch being awaited. */
  predicate LostOk(phase: Phase, lost: nat) {
    match phase
    case ReadWait => lost == 0
    case ReadRepair(_, _) => lost == 1
    case RmwRead => lost == 0
    case RmwRepair(_, _) => lost == 1
    case WriteWait => lost <= 1
  }

  ghost predicate FaultInv(g: Geo, s: State)
    requires g.Valid()
  {
    && (forall t | 0 <= t < |s.tasks| && s.tasks[t].pc.Busy? :: LostOk(s.tasks[t].pc.phase, s.tasks[t].pc.lost))
    && (forall i | 0 <= i < |s.log| :: Policy(g, s.log[i]))
  }

  /** What a stretch of code of task t comes to is in order. */
  ghost predicate OutlookOk(g: Geo, pc: Pc, r: Req, began: Option<nat>, o: Outlook)
    requires g.Valid()
  {
    match o
    case Await(phase, ios) => LostOk(phase, LostBy(pc))
    case Complete(status, data) => Policy(g, Completion(r, began, LostBy(pc), Spoilt(pc), status, data))
    case Panic => false
  }

  lemma {:induction false} BeginFaults(g: Geo, stripe: nat, r: Req, began: Option<nat>)
    requires g.Valid() && ReqOk(g, stripe, r)
    ensures OutlookOk(g, AtDequeue, r, began, Begin(g, stripe, r))
  {
    hide Segs, SegReads, ReqOk, InOneStripe, Undivided, StartOf, FullWrites, XorAll, Pieces, BusyOk;
    InOneStripeIff(g, r);
    BeginOk(g, stripe, r);
  }

  lemma {:induction false} ResumeFaults(g: Geo, stripe: nat, pc: Pc)
    requires g.Valid() && pc.Busy? && BusyOk(g, stripe, pc.req, pc.phase, pc.ios) && LostOk(pc.phase, pc.lost)
    requires if pc.phase.ReadRepair? || pc.phase.RmwRepair? then RepairSettled(pc.ios) else AllDone(pc.ios)
    ensures OutlookOk(g, pc, pc.req, pc.began, Resume(g, stripe, pc.req, pc.phase, pc.ios))
  {
    hide Segs, SegReads, RepairReads, ReqOk, InOneStripe, Undivided, IoOk, Failures, Datas, Concat, BeginWrites, XorAll,
         Position,
         AllDone, RepairSettled, RmwReads, SegRepair, ParityRepair, SegLens, HasLens, Uniform, SamePlan, DistinctDisks;
    InOneStripeIff(g, pc.req);
    ResumeOk(g, stripe, pc.req, pc.phase, pc.ios);
    if pc.phase.ReadWait? { SameLength(pc.ios, SegReads(g, StripeOf(g, pc.req), Segs(g, pc.req))); }
    if pc.phase.RmwRead? || pc.phase.RmwRepair? { WritesNext(g, stripe, pc.req, Datas(pc.ios)); }
    if pc.phase.RmwRepair? {
      var len := if pc.phase.k < |Segs(g, pc.req)| then Segs(g, pc.req)[pc.phase.k].len else g.strip;
      if pc.phase.k < |pc.phase.olds| && Uniform(Datas(pc.ios), len) {
        WritesNext(g, stripe, pc.req, pc.phase.olds[pc.phase.k := XorAll(Datas(pc.ios), len)]);
      }
    }
  }

  lemma {:induction false} WritesNext(g: Geo, stripe: nat, r: Req, olds: seq<Bytes>)
    requires g.Valid()
    ensures BeginWrites(g, stripe, r, olds).Panic?
            || (BeginWrites(g, stripe, r, olds).Await? && BeginWrites(g, stripe, r, olds).phase.WriteWait?)
  {
  }

  lemma {:induction false} SettleFaults(g: Geo, s: State, s': State, t: nat, r: Req, began: Option<nat>, o: Outlook)
    requires g.Valid() && FaultInv(g, s) && t < |s.tasks| && OutlookOk(g, s.tasks[t].pc, r, began, o)
    requires s' == Settle(s.(chans := s'.chans), t, r, began, o)
    ensures FaultInv(g, s')
  {
    hide Policy, LostBy, Spoilt, LostOk;
  }

  lemma {:induction false} DequeueFaults(g: Geo, s: State, t: nat)
    requires g.Valid() && Inv(g, s) && FaultInv(g, s) && Enabled(g, s, Dequeue(t))
    ensures FaultInv(g, DequeueStep(g, s, t))
  {
    hide Inv, Orderly, Policy, LostOk, Begin, StripeOf, OnlyBusy, DisksOk, OutlookOk, DequeueStep;
    DequeueNext(g, s, t);
    var s', stripe := DequeueStep(g, s, t), s.tasks[t].stripe;
    if Queued(g, s, stripe) != [] {
      var r := Queued(g, s, stripe)[0];
      BeginFaults(g, stripe, r, s.dead);
      SettleFaults(g, s, s', t, r, s.dead, Begin(g, stripe, r));
    }
  }

  lemma {:induction false} AdvanceFaults(g: Geo, s: State, t: nat)
    requires g.Valid() && Inv(g, s) && FaultInv(g, s) && Enabled(g, s, Advance(t))
    ensures FaultInv(g, AdvanceStep(g, s, t))
  {
    hide Inv, Orderly, Policy, LostOk, Resume, BusyOk, OutlookOk, RepairSettled, AllDone;
    var pc, stripe := s.tasks[t].pc, s.tasks[t].stripe;
    BusyEntry(g, s, t);
    ResumeFaults(g, stripe, pc);
    SettleFaults(g, s, AdvanceStep(g, s, t), t, pc.req, pc.began, Resume(g, stripe, pc.req, pc.phase, pc.ios));
  }

  lemma {:induction false} EffectFaults(g: Geo, s: State, t: nat, i: nat, ok: bool, junk: Bytes)
    requires g.Valid() && FaultInv(g, s) && Enabled(g, s, Effect(t, i, ok, junk))
    ensures FaultInv(g, EffectStep(g, s, t, i, ok, junk))
  {
    hide Policy, LostOk, Splice, InRange;
  }

  lemma {:induction false} PollFaults(g: Geo, s: State, w: nat)
    requires g.Valid() && FaultInv(g, s) && Enabled(g, s, Poll(w))
    ensures FaultInv(g, PollStep(g, s, w))
  {
    hide Policy, LostOk, Enqueued, StripeOf;
  }

  lemma {:induction false} StepFaults(g: Geo, s: State, a: Action)
    requires g.Valid() && Inv(g, s) && FaultInv(g, s) && Enabled(g, s, a)
    ensures FaultInv(g, Next(g, s, a))
  {
    hide Inv, Policy, LostOk, DequeueStep, AdvanceStep, EffectStep, PollStep, StripeOf, ValidReq;
    match a
    case Submit(r) =>
    case Deliver(w) =>
    case Poll(w) => PollFaults(g, s, w);
    case Dequeue(t) => DequeueFaults(g, s, t);
    case Effect(t, i, ok, junk) => EffectFaults(g, s, t, i, ok, junk);
    case Advance(t) => AdvanceFaults(g, s, t);
    case Die(d) =>
  }

  lemma {:induction false} InitialFaults(g: Geo, s: State)
    requires g.Valid() && Initial(g, s)
    ensures FaultInv(g, s)
  {
  }

  lemma {:induction false} RunFaults(g: Geo, run: seq<State>, acts: seq<Action>, n: nat)
    requires g.Valid() && IsRun(g, run, acts) && n < |run|
    ensures FaultInv(g, run[n])
    decreases n
  {
    hide FaultInv, Inv, Next, Enabled;
    if n == 0 {
      InitialFaults(g, run[0]);
    } else {
      RunFaults(g, run, acts, n - 1);
      RunInv(g, run, acts, n - 1);
      StepFaults(g, run[n - 1], acts[n - 1]);
    }
  }

  /** For every completed request, in every run, whatever the child disks do: a read fails exactly
      if it lost two child reads or more, a write never gets to writing exactly if it did, and
      one that got there fails exactly if one of its child writes failed, data or parity. */
  lemma {:induction false} AnswerPolicy(g: Geo, run: seq<State>, acts: seq<Action>, n: nat, i: nat)
    requires g.Valid() && IsRun(g, run, acts) && n < |run| && i < |run[n].log|
    ensures Policy(g, run[n].log[i])
  {
    hide Policy, IsRun;
    RunFaults(g, run, acts, n);
  }

  // Reads that fail on a dead disk only.

  /** On stripe x, only a dead disk fails to read. */
  ghost predicate Spares(g: Geo, s: State, a: Action, x: nat)
    requires g.Valid() && Enabled(g, s, a)
  {
    a.Effect? && s.tasks[a.t].stripe == x && !s.tasks[a.t].pc.phase.WriteWait? && !a.ok ==>
      s.dead == Some(s.tasks[a.t].pc.ios[a.i].disk)
  }

  ghost predicate SparedRun(g: Geo, run: seq<State>, acts: seq<Action>, x: nat)
    requires g.Valid() && IsRun(g, run, acts)
  {
    forall i | 0 <= i < |acts| :: Spares(g, run[i], acts[i], x)
  }

  /** Reads of the request in hand failed on the dead disk only, and only its data is rebuilt. */
  ghost predicate MissedOk(g: Geo, r: Req, phase: Phase, ios: seq<ChildIo>, dead: Option<nat>)
    requires g.Valid()
  {
    && (!phase.WriteWait? ==> forall i | 0 <= i < |ios| && Failed(ios[i]) :: dead == Some(ios[i].disk))
    && (phase.ReadRepair? ==> phase.k < |Segs(g, r)| && dead == Some(Segs(g, r)[phase.k].disk))
    && (phase.RmwRepair? ==> phase.k < |RmwReads(g, r)| && dead == Some(RmwReads(g, r)[phase.k].disk))
  }

  ghost predicate MissedInv(g: Geo, s: State, x: nat)
    requires g.Valid()
  {
    && (forall t: nat | BusyOn(s, x, t) ::
          MissedOk(g, s.tasks[t].pc.req, s.tasks[t].pc.phase, s.tasks[t].pc.ios, s.dead))
    && (forall i | 0 <= i < |s.log| && StripeOf(g, s.log[i].req) == x :: s.log[i].lost <= 1)
  }

  /** A task's next stretch of code loses no second read. */
  ghost predicate FewLost(g: Geo, pc: Pc, r: Req, o: Outlook, dead: Option<nat>)
    requires g.Valid()
  {
    match o
    case Await(phase, ios) => MissedOk(g, r, phase, ios, dead)
    case Complete(_, _) => LostBy(pc) <= 1
    case Panic => true
  }

  lemma {:induction false} BeginMissed(g: Geo, stripe: nat, r: Req, dead: Option<nat>)
    requires g.Valid() && ReqOk(g, stripe, r)
    ensures FewLost(g, AtDequeue, r, Begin(g, stripe, r), dead)
  {
    hide Segs, SegReads, ReqOk, InOneStripe, StartOf, BusyOk, BeginFull;
    if InOneStripe(g, r) {
      if r.kind.Write? && StartOf(g, r) == 0 && r.len == g.StripeLen() {
        BeginFullOk(g, stripe, r);
      } else {
        SegReadsFresh(g, stripe, Segs(g, r));
      }
    }
  }

  lemma {:induction false} TwoFailed(ios: seq<ChildIo>) returns (i: nat, j: nat)
    requires |Failures(ios)| >= 2
    ensures i < j < |ios| && Failed(ios[i]) && Failed(ios[j])
  {
    i, j := Failures(ios)[0], Failures(ios)[1];
  }

  /** With one disk dead, at most one read of a plan over distinct disks fails. */
  lemma {:induction false} OneLost(ios: seq<ChildIo>, dead: Option<nat>)
    requires DistinctDisks(ios) && forall i | 0 <= i < |ios| && Failed(ios[i]) :: dead == Some(ios[i].disk)
    ensures |Failures(ios)| <= 1
    ensures |Failures(ios)| == 1 ==> Failures(ios)[0] < |ios| && dead == Some(ios[Failures(ios)[0]].disk)
  {
    if |Failures(ios)| >= 2 {
      var i, j := TwoFailed(ios);
      assert false;
    }
  }

  /** Reads that skip the dead disk cannot fail. */
  lemma {:induction false} RepairKept(skip: nat, lo: nat, len: nat, m: nat, ios: seq<ChildIo>)
    requires SamePlan(ios, RepairReads(skip, lo, len, m))
    requires forall i | 0 <= i < |ios| && Failed(ios[i]) :: ios[i].disk == skip
    ensures |Failures(ios)| == 0
  {
    forall i | 0 <= i < |ios|
      ensures !Failed(ios[i])
    {
      assert ios[i].(out := Pending) == RepairReads(skip, lo, len, m)[i];
    }
    NoFailures(ios);
  }

  lemma {:induction false} ReadWaitMissed(g: Geo, stripe: nat, pc: Pc, dead: Option<nat>)
    requires g.Valid() && pc.Busy? && BusyOk(g, stripe, pc.req, pc.phase, pc.ios) && LostOk(pc.phase, pc.lost)
    requires pc.phase.ReadWait? && MissedOk(g, pc.req, pc.phase, pc.ios, dead)
    ensures FewLost(g, pc, pc.req, Resume(g, stripe, pc.req, pc.phase, pc.ios), dead)
  {
    hide Segs, SegReads, RepairReads, ReqOk, IoOk, Datas, Concat, SegLens, SamePlan, Failures, DistinctDisks,
         InOneStripe;
    var plan := SegReads(g, StripeOf(g, pc.req), Segs(g, pc.req));
    assert SamePlan(pc.ios, plan);
    PlannedDisks(g, pc.req, pc.ios);
    OneLost(pc.ios, dead);
    SameLength(pc.ios, plan);
    if |Failures(pc.ios)| == 1 {
      var k := Failures(pc.ios)[0];
      SameDisk(pc.ios, plan, k);
      var s := Segs(g, pc.req)[k];
      RepairReadsFresh(s.disk, g.Base(stripe) + s.off, s.len, g.ndisks - 1);
    }
  }

  lemma {:induction false} RmwReadMissed(g: Geo, stripe: nat, pc: Pc, dead: Option<nat>)
    requires g.Valid() && pc.Busy? && BusyOk(g, stripe, pc.req, pc.phase, pc.ios) && LostOk(pc.phase, pc.lost)
    requires pc.phase.RmwRead? && AllDone(pc.ios) && MissedOk(g, pc.req, pc.phase, pc.ios, dead)
    ensures FewLost(g, pc, pc.req, Resume(g, stripe, pc.req, pc.phase, pc.ios), dead)
  {
    hide Segs, SegReads, RepairReads, ReqOk, IoOk, Datas, SegLens, SamePlan, Failures, DistinctDisks, InOneStripe,
         BeginWrites, RmwReads, Position, HasLens, AllDone, StripeOf;
    assert SamePlan(pc.ios, RmwReads(g, pc.req));
    PlannedDisks(g, pc.req, pc.ios);
    OneLost(pc.ios, dead);
    SameLength(pc.ios, RmwReads(g, pc.req));
    RmwDataLens(g, stripe, pc.req, pc.ios);
    WritesNext(g, stripe, pc.req, Datas(pc.ios));
    if |Failures(pc.ios)| == 1 {
      var k := Failures(pc.ios)[0];
      RmwFailedDisk(g, stripe, pc.req, pc.ios, k);
      SameDisk(pc.ios, RmwReads(g, pc.req), k);
      var segs := Segs(g, pc.req);
      var lo := if k < |segs| then g.Base(stripe) + segs[k].off else g.Base(stripe);
      RepairReadsFresh(pc.ios[k].disk, lo, if k < |segs| then segs[k].len else g.strip, g.ndisks - 1);
    }
  }

  lemma {:induction false} RepairMissed(g: Geo, stripe: nat, pc: Pc, dead: Option<nat>)
    requires g.Valid() && pc.Busy? && BusyOk(g, stripe, pc.req, pc.phase, pc.ios) && LostOk(pc.phase, pc.lost)
    requires pc.phase.ReadRepair? || pc.phase.RmwRepair?
    requires MissedOk(g, pc.req, pc.phase, pc.ios, dead)
    ensures |Failures(pc.ios)| == 0 && LostBy(pc) == 1
  {
    hide Segs, SegReads, RepairReads, ReqOk, IoOk, SegLens, SamePlan, Failures, InOneStripe, HasLens;
    var r, k := pc.req, pc.phase.k;
    if k < |Segs(g, r)| {
      assert pc.phase.RmwRepair? ==> RmwReads(g, r)[k].disk == Segs(g, r)[k].disk;
      var s := Segs(g, r)[k];
      RepairKept(s.disk, g.Base(StripeOf(g, r)) + s.off, s.len, g.ndisks - 1, pc.ios);
    } else {
      assert RmwReads(g, r)[k].disk == g.Parity(StripeOf(g, r)) by { ParityReadLast(g, r); }
      RepairKept(g.Parity(StripeOf(g, r)), g.Base(StripeOf(g, r)), g.strip, g.ndisks - 1, pc.ios);
    }
  }

  lemma {:induction false} ResumeMissed(g: Geo, stripe: nat, pc: Pc, dead: Option<nat>)
    requires g.Valid() && pc.Busy? && BusyOk(g, stripe, pc.req, pc.phase, pc.ios) && LostOk(pc.phase, pc.lost)
    requires if pc.phase.ReadRepair? || pc.phase.RmwRepair? then RepairSettled(pc.ios) else AllDone(pc.ios)
    requires MissedOk(g, pc.req, pc.phase, pc.ios, dead)
    ensures FewLost(g, pc, pc.req, Resume(g, stripe, pc.req, pc.phase, pc.ios), dead)
  {
    match pc.phase
    case ReadWait => ReadWaitMissed(g, stripe, pc, dead);
    case RmwRead => RmwReadMissed(g, stripe, pc, dead);
    case WriteWait =>
    case ReadRepair(parts, k) =>
      RepairMissed(g, stripe, pc, dead);
    case RmwRepair(olds, k) =>
      hide BusyOk, BeginWrites, Segs, Datas, XorAll, RepairSettled, MissedOk;
      RepairMissed(g, stripe, pc, dead);
      RepairNext(g, stripe, pc.req, olds, k, pc.ios);
  }

  lemma {:induction false} RepairNext(g: Geo, stripe: nat, r: Req, olds: seq<Bytes>, k: nat, ios: seq<ChildIo>)
    requires g.Valid() && |Failures(ios)| == 0
    ensures var o := Resume(g, stripe, r, RmwRepair(olds, k), ios);
            o.Panic? || (o.Await? && o.phase.WriteWait?)
  {
    hide Segs, XorAll, BeginWrites, Datas, Failures;
    var len := if k < |Segs(g, r)| then Segs(g, r)[k].len else g.strip;
    if k < |olds| && Uniform(Datas(ios), len) {
      WritesNext(g, stripe, r, olds[k := XorAll(Datas(ios), len)]);
    }
  }

  lemma {:induction false} SettleMissed(g: Geo, s: State, s': State, t: nat, r: Req, began: Option<nat>, o: Outlook,
                                        x: nat)
    requires g.Valid() && MissedInv(g, s, x) && t < |s.tasks| && s.tasks[t].stripe == StripeOf(g, r)
    requires StripeOf(g, r) == x ==> FewLost(g, s.tasks[t].pc, r, o, s.dead)
    requires s' == Settle(s.(chans := s'.chans), t, r, began, o)
    ensures MissedInv(g, s', x)
  {
    hide MissedOk, StripeOf, LostBy, Spoilt;
    forall u: nat | BusyOn(s', x, u)
      ensures MissedOk(g, s'.tasks[u].pc.req, s'.tasks[u].pc.phase, s'.tasks[u].pc.ios, s'.dead)
    {
      if u != t || !o.Await? { assert BusyOn(s, x, u); }
    }
  }

  lemma {:induction false} DequeueMissed(g: Geo, s: State, t: nat, x: nat)
    requires g.Valid() && Inv(g, s) && MissedInv(g, s, x) && Enabled(g, s, Dequeue(t))
    ensures MissedInv(g, DequeueStep(g, s, t), x)
  {
    hide Inv, Orderly, MissedOk, Begin, StripeOf, OnlyBusy, DisksOk, FewLost, DequeueStep;
    DequeueNext(g, s, t);
    var s', stripe := DequeueStep(g, s, t), s.tasks[t].stripe;
    if Queued(g, s, stripe) != [] {
      var r := Queued(g, s, stripe)[0];
      BeginMissed(g, stripe, r, s.dead);
      SettleMissed(g, s, s', t, r, s.dead, Begin(g, stripe, r), x);
    } else {
      SameMissed(g, s, s', x);
    }
  }

  lemma {:induction false} SameMissed(g: Geo, s: State, s': State, x: nat)
    requires g.Valid() && MissedInv(g, s, x) && s'.dead == s.dead && s'.log == s.log
    requires forall t: nat | BusyOn(s', x, t) :: BusyOn(s, x, t) && s'.tasks[t].pc == s.tasks[t].pc
    ensures MissedInv(g, s', x)
  {
    hide MissedOk;
  }

  lemma {:induction false} AdvanceMissed(g: Geo, s: State, t: nat, x: nat)
    requires g.Valid() && Inv(g, s) && FaultInv(g, s) && MissedInv(g, s, x) && Enabled(g, s, Advance(t))
    ensures MissedInv(g, AdvanceStep(g, s, t), x)
  {
    hide Inv, Orderly, Policy, LostOk, Resume, BusyOk, MissedOk, RepairSettled, AllDone, FewLost, StripeOf, DisksOk,
         AdvanceStep;
    var pc, stripe := s.tasks[t].pc, s.tasks[t].stripe;
    BusyEntry(g, s, t);
    InHandOf(g, s, t);
    if stripe == x {
      assert BusyOn(s, x, t);
      ResumeMissed(g, stripe, pc, s.dead);
    }
    AdvanceSettles(g, s, t);
    SettleMissed(g, s, AdvanceStep(g, s, t), t, pc.req, pc.began, Resume(g, stripe, pc.req, pc.phase, pc.ios), x);
  }

  lemma {:induction false} AdvanceSettles(g: Geo, s: State, t: nat)
    requires g.Valid() && Enabled(g, s, Advance(t))
    ensures var s', pc := AdvanceStep(g, s, t), s.tasks[t].pc;
            s' == Settle(s.(chans := s'.chans), t, pc.req, pc.began,
                         Resume(g, s.tasks[t].stripe, pc.req, pc.phase, pc.ios))
  {
    hide Resume;
  }

  lemma {:induction false} EffectMissed(g: Geo, s: State, t: nat, i: nat, ok: bool, junk: Bytes, x: nat)
    requires g.Valid() && MissedInv(g, s, x) && Enabled(g, s, Effect(t, i, ok, junk))
    requires Spares(g, s, Effect(t, i, ok, junk), x)
    ensures MissedInv(g, EffectStep(g, s, t, i, ok, junk), x)
  {
    hide Segs, RmwReads, StripeOf, Splice;
    var s' := EffectStep(g, s, t, i, ok, junk);
    forall u: nat | BusyOn(s', x, u)
      ensures MissedOk(g, s'.tasks[u].pc.req, s'.tasks[u].pc.phase, s'.tasks[u].pc.ios, s'.dead)
    {
      assert BusyOn(s, x, u);
    }
  }

  lemma {:induction false} DieMissed(g: Geo, s: State, d: nat, x: nat)
    requires g.Valid() && MissedInv(g, s, x) && s.dead.None?
    ensures MissedInv(g, s.(dead := Some(d)), x)
  {
    hide Segs, RmwReads, StripeOf;
    forall u: nat | BusyOn(s.(dead := Some(d)), x, u)
      ensures MissedOk(g, s.tasks[u].pc.req, s.tasks[u].pc.phase, s.tasks[u].pc.ios, Some(d))
    {
      assert BusyOn(s, x, u);
    }
  }

  lemma {:induction false} StepMissed(g: Geo, s: State, a: Action, x: nat)
    requires g.Valid() && Inv(g, s) && FaultInv(g, s) && MissedInv(g, s, x) && Enabled(g, s, a) && Spares(g, s, a, x)
    ensures MissedInv(g, Next(g, s, a), x)
  {
    match a
    case Dequeue(t) => DequeueMissed(g, s, t, x);
    case Advance(t) => AdvanceMissed(g, s, t, x);
    case Effect(t, i, ok, junk) => EffectMissed(g, s, t, i, ok, junk, x);
    case Die(d) => DieMissed(g, s, d, x);
    case Submit(r) => SameMissed(g, s, Next(g, s, a), x);
    case Deliver(w) => SameMissed(g, s, Next(g, s, a), x);
    case Poll(w) =>
      hide Inv, FaultInv, MissedInv, Enqueued, StripeOf;
      SameMissed(g, s, Next(g, s, a), x);
  }

  lemma {:induction false} RunMissed(g: Geo, run: seq<State>, acts: seq<Action>, n: nat, x: nat)
    requires g.Valid() && IsRun(g, run, acts) && n < |run| && SparedRun(g, run, acts, x)
    ensures MissedInv(g, run[n], x)
    decreases n
  {
    hide FaultInv, Inv, Next, Enabled, Spares, MissedOk;
    if n > 0 {
      RunMissed(g, run, acts, n - 1, x);
      RunInv(g, run, acts, n - 1);
      RunFaults(g, run, acts, n - 1);
      StepMissed(g, run[n - 1], acts[n - 1], x);
    }
  }

  /** If only a dead disk fails to read on a stripe, no request of that stripe loses two reads:
      none is given up, even when the disk dies while it is under way. */
  lemma {:induction false} NoneGivenUp(g: Geo, run: seq<State>, acts: seq<Action>, n: nat, i: nat, x: nat)
    requires g.Valid() && IsRun(g, run, acts) && n < |run| && SparedRun(g, run, acts, x)
    requires i < |run[n].log| && StripeOf(g, run[n].log[i].req) == x && Undivided(g, run[n].log[i].req)
    ensures var c := run[n].log[i];
            && c.lost <= 1
            && (c.req.kind.Read? ==> c.status == Success)
            && (c.req.kind.Write? ==> c.wrote.Some?)
  {
    hide IsRun, SparedRun, Undivided, StripeOf;
    RunMissed(g, run, acts, n, x);
    AnswerPolicy(g, run, acts, n, i);
  }
}
