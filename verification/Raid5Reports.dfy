/** Answers in terms of what the child disks reported and when disks died, read off the actions
    of a run. */
module Raid5Reports {
  import opened XorAlgebra
  import opened Geometry
  import opened Strips
  import opened Parity
  import opened StripeQueues
  import opened Raid5Machine
  import opened Raid5Shape
  import opened Raid5Order
  import opened Raid5Data
  import opened Raid5Refinement
  import opened Raid5Faults
  import opened LogicalArray
  import opened Raid5Theorems

  /** Step a reports a failed child I/O of request r: a write, or a read. */
  predicate FailsFor(g: Geo, s: State, a: Action, r: Req, writing: bool)
    requires g.Valid() && Enabled(g, s, a)
  {
    a.Effect? && !a.ok && s.tasks[a.t].pc.req == r && s.tasks[a.t].pc.phase.WriteWait? == writing
  }

  /** The failed child reads, or child writes, of request r among the first n steps. */
  ghost function Failing(g: Geo, run: seq<State>, acts: seq<Action>, n: nat, r: Req, writing: bool): nat
    requires g.Valid() && IsRun(g, run, acts) && n < |run|
  {
    if n == 0 then 0
    else
      Failing(g, run, acts, n - 1, r, writing) + if FailsFor(g, run[n - 1], acts[n - 1], r, writing) then 1 else 0
  }

  // Requests come once.

  lemma {:induction false} OnlyHas(g: Geo, rs: seq<Req>, i: nat)
    requires g.Valid() && i < |rs|
    ensures rs[i] in Only(g, rs, StripeOf(g, rs[i]))
    decreases |rs|
  {
    hide StripeOf;
    if i < |rs| - 1 {
      OnlyHas(g, rs[..|rs| - 1], i);
    }
  }

  /** The requests of a stripe are all different. */
  lemma {:induction false} OnlyDistinct(g: Geo, rs: seq<Req>, x: nat, j: nat, k: nat)
    requires g.Valid() && Numbered(g, rs) && j < k < |Only(g, rs, x)|
    ensures Only(g, rs, x)[j] != Only(g, rs, x)[k]
  {
    hide StripeOf, ValidReq, Only;
    OnlyAt(g, rs, x, j);
    OnlyAt(g, rs, x, k);
    assert |Only(g, rs[..Only(g, rs, x)[j].id], x)| == j && |Only(g, rs[..Only(g, rs, x)[k].id], x)| == k;
  }

  lemma {:induction false} InBoth<T>(a: seq<T>, b: seq<T>, c: seq<T>, x: T) returns (j: nat, k: nat)
    requires x in a && x in b
    ensures j < k < |a + b + c| && (a + b + c)[j] == x && (a + b + c)[k] == x
  {
    j :| 0 <= j < |a| && a[j] == x;
    var i :| 0 <= i < |b| && b[i] == x;
    k := |a| + i;
  }

  /** A request in hand or queued has not been completed. */
  lemma {:induction false} NotCompleted(g: Geo, run: seq<State>, acts: seq<Action>, n: nat, i: nat, r: Req)
    requires g.Valid() && IsRun(g, run, acts) && n < |run| && i < |run[n].log| && Sized(g, run[n])
    requires r in InHand(run[n], StripeOf(g, r)) + Queued(g, run[n], StripeOf(g, r))
    ensures run[n].log[i].req != r
  {
    var s, x := run[n], StripeOf(g, r);
    hide IsRun, Only, Payload, Completed, StripeOf, InHand, Queued, Numbered;
    NothingLost(g, run, acts, n, x);
    RunNumbered(g, run, acts, n);
    var done, rest := Only(g, Completed(s.log), x), InHand(s, x) + Queued(g, s, x);
    var left := Only(g, Payload(Coming(s, g.Owner(x))), x);
    var all := Only(g, s.submitted, x);
    assert all == done + rest + left;
    if s.log[i].req == r {
      OnlyHas(g, Completed(s.log), i);
      var j, k := InBoth(done, rest, left, r);
      OnlyDistinct(g, s.submitted, x, j, k);
    }
  }

  // Counting.

  predicate Untried(ios: seq<ChildIo>) { forall i | 0 <= i < |ios| :: ios[i].out.Pending? }

  lemma {:induction false} UntriedLoseNone(ios: seq<ChildIo>)
    requires Untried(ios)
    ensures |Failures(ios)| == 0
  {
    NoFailures(ios);
  }

  lemma {:induction false} WritesUntried(g: Geo, stripe: nat, r: Req, olds: seq<Bytes>)
    requires g.Valid()
    ensures BeginWrites(g, stripe, r, olds).Await? ==> Untried(BeginWrites(g, stripe, r, olds).ios)
  {
    hide Segs, Rmw;
  }

  /** Every batch of child I/O starts with nothing reported. */
  lemma {:induction false} BeginUntried(g: Geo, stripe: nat, r: Req)
    requires g.Valid()
    ensures Begin(g, stripe, r).Await? ==> Untried(Begin(g, stripe, r).ios)
  {
    hide Segs, XorAll, Pieces, InOneStripe, StartOf;
  }

  lemma {:induction false} ResumeUntried(g: Geo, stripe: nat, r: Req, phase: Phase, ios: seq<ChildIo>)
    requires g.Valid()
    ensures var o := Resume(g, stripe, r, phase, ios);
            o.Await? ==> Untried(o.ios) && !phase.WriteWait?
  {
    hide Segs, XorAll, BeginWrites, Concat, Position, Failures, Datas;
    WritesUntried(g, stripe, r, Datas(ios));
    if phase.RmwRepair? {
      var len := if phase.k < |Segs(g, r)| then Segs(g, r)[phase.k].len else g.strip;
      if phase.k < |phase.olds| && Uniform(Datas(ios), len) {
        WritesUntried(g, stripe, r, phase.olds[phase.k := XorAll(Datas(ios), len)]);
      }
    }
  }

  /** One more outcome: one more failure, or none. */
  lemma {:induction false} FailuresMore(ios: seq<ChildIo>, i: nat, ok: bool, data: Bytes)
    requires i < |ios| && ios[i].out.Pending?
    ensures |Failures(ios[i := ios[i].(out := Done(ok, data))])| == |Failures(ios)| + if ok then 0 else 1
    decreases |ios|
  {
    var n, io := |ios| - 1, ios[i].(out := Done(ok, data));
    if i < n {
      FailuresMore(ios[..n], i, ok, data);
      assert ios[i := io][..n] == ios[..n][i := io];
    } else {
      assert ios[i := io][..n] == ios[..n];
    }
  }

  /** What a task's history says of the failed reads, or writes, of the request in hand. */
  function HandCount(pc: Pc, writing: bool): nat
    requires pc.Busy?
  {
    if !writing then LostBy(pc) else if Spoilt(pc).Some? then Spoilt(pc).value else 0
  }

  function LogCount(c: Completion, writing: bool): nat {
    if !writing then c.lost else if c.wrote.Some? then c.wrote.value else 0
  }

  predicate HasInHand(s: State, t: nat, r: Req) { t < |s.tasks| && s.tasks[t].pc.Busy? && s.tasks[t].pc.req == r }

  /** The history of request r says k. */
  ghost predicate Tells(s: State, r: Req, writing: bool, k: nat) {
    && (forall t: nat | HasInHand(s, t, r) :: k == HandCount(s.tasks[t].pc, writing))
    && (forall i | 0 <= i < |s.log| && s.log[i].req == r :: k == LogCount(s.log[i], writing))
    && ((forall t: nat :: !HasInHand(s, t, r)) && (forall i | 0 <= i < |s.log| :: s.log[i].req != r) ==> k == 0)
  }

  lemma {:induction false} TellsSame(s: State, s': State, r: Req, writing: bool, k: nat)
    requires Tells(s, r, writing, k) && s'.log == s.log
    requires forall t: nat :: HasInHand(s', t, r) <==> HasInHand(s, t, r)
    requires forall t: nat | HasInHand(s', t, r) :: s'.tasks[t].pc == s.tasks[t].pc
    ensures Tells(s', r, writing, k)
  {
    hide HandCount, LogCount;
  }

  /** A request taken off its queue has no history yet. */
  lemma {:induction false} DequeueTells(g: Geo, s: State, t: nat, r: Req, writing: bool, k: nat)
    requires g.Valid() && Inv(g, s) && Enabled(g, s, Dequeue(t)) && Tells(s, r, writing, k)
    requires forall i | 0 <= i < |s.log| && s.log[i].req == r :: r !in Queued(g, s, StripeOf(g, r))
    ensures Tells(DequeueStep(g, s, t), r, writing, k)
  {
    hide Inv, Begin, StripeOf, DisksOk, Orderly, DequeueStep, Failures, BusyOk;
    var s', stripe := DequeueStep(g, s, t), s.tasks[t].stripe;
    DequeueNext(g, s, t);
    if Queued(g, s, stripe) == [] || Queued(g, s, stripe)[0] != r {
      OthersTell(s, s', t, r, writing, k);
    } else {
      NotYetInHand(g, s, t, r);
      BeginUntried(g, stripe, r);
      BeginOk(g, stripe, r);
      if Begin(g, stripe, r).Await? { UntriedLoseNone(Begin(g, stripe, r).ios); }
      assert Queued(g, s, stripe)[0] in Queued(g, s, stripe);
      FirstTells(g, s, s', t, r, writing, Begin(g, stripe, r));
    }
  }

  /** Of the requests of a stripe only its drainer's is in hand. */
  lemma {:induction false} NotYetInHand(g: Geo, s: State, t: nat, r: Req)
    requires g.Valid() && Inv(g, s) && t < |s.tasks| && s.tasks[t].pc.AtDequeue? && StripeOf(g, r) == s.tasks[t].stripe
    ensures forall u: nat :: !HasInHand(s, u, r)
  {
    hide Inv, StripeOf;
    forall u: nat
      ensures !HasInHand(s, u, r)
    {
      if HasInHand(s, u, r) {
        InHandOf(g, s, u);
        DrainersDiffer(g, s, t, u);
      }
    }
  }

  /** A step of task t that has nothing to do with r. */
  lemma {:induction false} OthersTell(s: State, s': State, t: nat, r: Req, writing: bool, k: nat)
    requires Tells(s, r, writing, k) && t < |s.tasks| == |s'.tasks|
    requires forall u: nat | u < |s.tasks| && u != t :: s'.tasks[u] == s.tasks[u]
    requires !HasInHand(s, t, r) && !HasInHand(s', t, r)
    requires s'.log == s.log || exists c :: s'.log == s.log + [c] && c.req != r
    ensures Tells(s', r, writing, k)
  {
    hide HandCount, LogCount;
    forall u: nat
      ensures HasInHand(s', u, r) <==> HasInHand(s, u, r)
    {
    }
    if s'.log != s.log {
      var c :| s'.log == s.log + [c] && c.req != r;
      forall i | 0 <= i < |s.log|
        ensures s'.log[i] == s.log[i]
      {
      }
    }
  }

  lemma {:induction false} FirstTells(g: Geo, s: State, s': State, t: nat, r: Req, writing: bool, o: Outlook)
    requires t < |s.tasks| && s.tasks[t].pc.AtDequeue? && s' == Settle(s.(chans := s'.chans), t, r, s.dead, o)
    requires o.Await? ==> |Failures(o.ios)| == 0
    requires !o.Panic?
    requires forall u: nat :: !HasInHand(s, u, r)
    requires forall i | 0 <= i < |s.log| :: s.log[i].req != r
    ensures Tells(s', r, writing, 0)
  {
    hide Failures;
    forall u: nat | HasInHand(s', u, r)
      ensures u == t
    {
      assert u != t ==> HasInHand(s, u, r);
    }
  }

  /** Going on with a request keeps count. */
  lemma {:induction false} AdvanceTells(g: Geo, s: State, t: nat, r: Req, writing: bool, k: nat)
    requires g.Valid() && Inv(g, s) && Enabled(g, s, Advance(t)) && Tells(s, r, writing, k)
    ensures Tells(AdvanceStep(g, s, t), r, writing, k)
  {
    hide Inv, Resume, StripeOf, Orderly, AdvanceStep, Failures, BusyOk, RepairSettled, AllDone;
    var s', pc, stripe := AdvanceStep(g, s, t), s.tasks[t].pc, s.tasks[t].stripe;
    BusyEntry(g, s, t);
    AdvanceSettles(g, s, t);
    ResumeOk(g, stripe, pc.req, pc.phase, pc.ios);
    if pc.req != r {
      OthersTell(s, s', t, r, writing, k);
    } else {
      var o := Resume(g, stripe, pc.req, pc.phase, pc.ios);
      ResumeUntried(g, stripe, pc.req, pc.phase, pc.ios);
      if o.Await? { UntriedLoseNone(o.ios); }
      InHandOf(g, s, t);
      AloneInHand(g, s, t);
      NextTells(s, s', t, writing, k, o);
    }
  }

  lemma {:induction false} AloneInHand(g: Geo, s: State, t: nat)
    requires g.Valid() && Inv(g, s) && t < |s.tasks| && s.tasks[t].pc.Busy?
    ensures forall u: nat | HasInHand(s, u, s.tasks[t].pc.req) :: u == t
  {
    hide Inv, StripeOf;
    InHandOf(g, s, t);
    forall u: nat | HasInHand(s, u, s.tasks[t].pc.req)
      ensures u == t
    {
      InHandOf(g, s, u);
      DrainersDiffer(g, s, t, u);
    }
  }

  lemma {:induction false} NextTells(s: State, s': State, t: nat, writing: bool, k: nat, o: Outlook)
    requires t < |s.tasks| && s.tasks[t].pc.Busy? && Tells(s, s.tasks[t].pc.req, writing, k)
    requires s' == Settle(s.(chans := s'.chans), t, s.tasks[t].pc.req, s.tasks[t].pc.began, o)
    requires o.Await? ==> |Failures(o.ios)| == 0 && !s.tasks[t].pc.phase.WriteWait?
    requires !o.Panic?
    requires forall u: nat | HasInHand(s, u, s.tasks[t].pc.req) :: u == t
    ensures Tells(s', s.tasks[t].pc.req, writing, k)
  {
    hide Failures;
    var r := s.tasks[t].pc.req;
    assert HasInHand(s, t, r);
    forall u: nat | HasInHand(s', u, r)
      ensures u == t
    {
      assert u != t ==> HasInHand(s, u, r);
    }
    if o.Complete? {
      assert s'.log[|s.log|].req == r;
      forall i | 0 <= i < |s.log|
        ensures s'.log[i] == s.log[i]
      {
      }
    } else {
      assert HasInHand(s', t, r);
    }
  }

  /** A failed child I/O counts for the request it belongs to, and for no other. */
  lemma {:induction false} EffectTells(g: Geo, s: State, a: Action, r: Req, writing: bool, k: nat)
    requires g.Valid() && Inv(g, s) && Enabled(g, s, a) && a.Effect? && Tells(s, r, writing, k)
    requires s.tasks[a.t].pc.req == r ==> forall i | 0 <= i < |s.log| :: s.log[i].req != r
    ensures Tells(Next(g, s, a), r, writing, k + if FailsFor(g, s, a, r, writing) then 1 else 0)
  {
    hide Inv, Failures, Splice;
    var s', t := Next(g, s, a), a.t;
    if s.tasks[t].pc.req != r {
      OthersTell(s, s', t, r, writing, k);
    } else {
      AloneInHand(g, s, t);
      var io := s.tasks[t].pc.ios[a.i];
      var data := if io.dir.In? && a.ok then s.disks[io.disk][io.lo..io.lo + io.len] else a.junk;
      FailuresMore(s.tasks[t].pc.ios, a.i, a.ok, data);
      assert HasInHand(s, t, r) && HasInHand(s', t, r);
      forall u: nat | HasInHand(s', u, r)
        ensures u == t
      {
        assert u != t ==> HasInHand(s, u, r);
      }
    }
  }

  lemma {:induction false} StepTells(g: Geo, s: State, a: Action, r: Req, writing: bool, k: nat)
    requires g.Valid() && Inv(g, s) && Enabled(g, s, a) && Tells(s, r, writing, k)
    requires forall i | 0 <= i < |s.log| && s.log[i].req == r ::
               r !in Queued(g, s, StripeOf(g, r)) && forall t: nat :: !HasInHand(s, t, r)
    ensures Tells(Next(g, s, a), r, writing, k + if FailsFor(g, s, a, r, writing) then 1 else 0)
  {
    hide Inv, Tells, StripeOf, Enqueued, DequeueStep, AdvanceStep, EffectStep, Queued;
    match a
    case Dequeue(t) => DequeueTells(g, s, t, r, writing, k);
    case Advance(t) => AdvanceTells(g, s, t, r, writing, k);
    case Effect(t, i, ok, junk) =>
      assert s.tasks[t].pc.req == r ==> HasInHand(s, t, r);
      EffectTells(g, s, a, r, writing, k);
    case Submit(q) => TellsSame(s, Next(g, s, a), r, writing, k);
    case Deliver(w) => TellsSame(s, Next(g, s, a), r, writing, k);
    case Poll(w) => PollTells(g, s, w, r, writing, k);
    case Die(d) => TellsSame(s, Next(g, s, a), r, writing, k);
  }

  lemma {:induction false} PollTells(g: Geo, s: State, w: nat, r: Req, writing: bool, k: nat)
    requires g.Valid() && Enabled(g, s, Poll(w)) && Tells(s, r, writing, k)
    ensures Tells(PollStep(g, s, w), r, writing, k)
  {
    hide Tells, Enqueued, StripeOf;
    TellsSame(s, PollStep(g, s, w), r, writing, k);
  }

  /** What was completed is neither queued nor in hand. */
  lemma {:induction false} DoneApart(g: Geo, run: seq<State>, acts: seq<Action>, n: nat, r: Req)
    requires g.Valid() && IsRun(g, run, acts) && n < |run|
    ensures Sized(g, run[n])
    ensures forall i | 0 <= i < |run[n].log| && run[n].log[i].req == r ::
              r !in Queued(g, run[n], StripeOf(g, r)) && forall t: nat :: !HasInHand(run[n], t, r)
  {
    RunInv(g, run, acts, n);
    hide Inv, IsRun, Queued, StripeOf, HasInHand;
    InvSized(g, run[n]);
    if i :| 0 <= i < |run[n].log| && run[n].log[i].req == r { DoneIsDone(g, run, acts, n, i); }
  }

  lemma {:induction false} InitialTells(g: Geo, s: State, r: Req, writing: bool)
    requires g.Valid() && Initial(g, s)
    ensures Tells(s, r, writing, 0)
  {
  }

  /** The history of a request is what its child disks have reported. */
  lemma {:induction false} RunTells(g: Geo, run: seq<State>, acts: seq<Action>, n: nat, r: Req, writing: bool)
    requires g.Valid() && IsRun(g, run, acts) && n < |run|
    ensures Tells(run[n], r, writing, Failing(g, run, acts, n, r, writing))
    decreases n
  {
    hide Inv, Next, Enabled, Tells, FailsFor, Queued, StripeOf, HasInHand, Sized;
    if n == 0 {
      InitialTells(g, run[0], r, writing);
    } else {
      RunTells(g, run, acts, n - 1, r, writing);
      RunInv(g, run, acts, n - 1);
      DoneApart(g, run, acts, n - 1, r);
      StepTells(g, run[n - 1], acts[n - 1], r, writing, Failing(g, run, acts, n - 1, r, writing));
    }
  }

  lemma {:induction false} InvSized(g: Geo, s: State)
    requires g.Valid() && Inv(g, s)
    ensures Sized(g, s)
  {
  }

  /** A completed request is neither in hand nor queued. */
  lemma {:induction false} DoneIsDone(g: Geo, run: seq<State>, acts: seq<Action>, n: nat, i: nat)
    requires g.Valid() && IsRun(g, run, acts) && n < |run| && i < |run[n].log|
    ensures Sized(g, run[n]) && run[n].log[i].req !in Queued(g, run[n], StripeOf(g, run[n].log[i].req))
    ensures forall t: nat :: !HasInHand(run[n], t, run[n].log[i].req)
  {
    var s, r := run[n], run[n].log[i].req;
    RunInv(g, run, acts, n);
    InvSized(g, s);
    hide IsRun, Inv, Sized, InHand, Queued, StripeOf;
    if r in Queued(g, s, StripeOf(g, r)) { NotCompleted(g, run, acts, n, i, r); }
    forall t: nat
      ensures !HasInHand(s, t, r)
    {
      if HasInHand(s, t, r) {
        InHandOf(g, s, t);
        InHandIs(g, s, t);
        assert r in InHand(s, StripeOf(g, r));
        NotCompleted(g, run, acts, n, i, r);
      }
    }
  }

  /** For every request completed in any run, whatever the child disks do: counting the reports of
      its child I/Os, a read fails exactly if two of its child reads failed or more; a write stops
      before writing exactly then, and otherwise fails exactly if one of its child writes did, data
      or parity; a request not within one stripe fails, and no child I/O is done for it. */
  lemma {:induction false} AnswerByReports(g: Geo, run: seq<State>, acts: seq<Action>, n: nat, i: nat)
    requires g.Valid() && IsRun(g, run, acts) && n < |run| && i < |run[n].log|
    ensures var c := run[n].log[i];
            var badReads, badWrites := Failing(g, run, acts, n, c.req, false), Failing(g, run, acts, n, c.req, true);
            && c.lost == badReads && (c.wrote.Some? ==> c.wrote.value == badWrites)
            && (c.status == Failure <==>
                  || !Undivided(g, c.req)
                  || (c.req.kind.Read? && badReads >= 2)
                  || (c.req.kind.Write? && (badReads >= 2 || badWrites >= 1))
                  || c.req.kind.Other?)
            && (c.wrote.Some? <==> c.req.kind.Write? && Undivided(g, c.req) && badReads < 2)
  {
    hide IsRun, Undivided;
    AnswerPolicy(g, run, acts, n, i);
    RunTells(g, run, acts, n, run[n].log[i].req, false);
    RunTells(g, run, acts, n, run[n].log[i].req, true);
  }

  // After a disk has died.

  lemma {:induction false} InFirst<T>(a: seq<T>, b: seq<T>, c: seq<T>, d: seq<T>, x: T)
    requires x in b
    ensures x in a + b + c + d
  {
  }

  /** A request in hand was submitted before. */
  lemma {:induction false} HandSubmitted(g: Geo, run: seq<State>, acts: seq<Action>, n: nat, t: nat)
    requires g.Valid() && IsRun(g, run, acts) && n < |run| && t < |run[n].tasks| && run[n].tasks[t].pc.Busy?
    ensures run[n].tasks[t].pc.req.id < |run[n].submitted|
  {
    var s, x := run[n], run[n].tasks[t].stripe;
    var r := s.tasks[t].pc.req;
    RunInv(g, run, acts, n);
    BusyEntry(g, s, t);
    hide IsRun, Inv, Only, Payload, Completed, InHand, Queued, Numbered, StripeOf;
    InHandIs(g, s, t);
    NothingLost(g, run, acts, n, x);
    RunNumbered(g, run, acts, n);
    InFirst(Only(g, Completed(s.log), x), InHand(s, x), Queued(g, s, x),
            Only(g, Payload(Coming(s, g.Owner(x))), x), r);
    var k :| 0 <= k < |Only(g, s.submitted, x)| && Only(g, s.submitted, x)[k] == r;
    OnlyAt(g, s.submitted, x, k);
  }

  /** Requests with numbers from `first` on began with disk d dead. */
  ghost predicate BegunDead(s: State, first: nat, d: nat) {
    && (forall t | 0 <= t < |s.tasks| && s.tasks[t].pc.Busy? && s.tasks[t].pc.req.id >= first ::
          s.tasks[t].pc.began == Some(d))
    && (forall i | 0 <= i < |s.log| && s.log[i].req.id >= first :: s.log[i].began == Some(d))
  }

  lemma {:induction false} SettleBegun(s: State, s': State, t: nat, r: Req, began: Option<nat>, o: Outlook, first: nat,
                                       d: nat)
    requires t < |s.tasks| && BegunDead(s, first, d) && (r.id >= first ==> began == Some(d))
    requires s' == Settle(s.(chans := s'.chans), t, r, began, o)
    ensures BegunDead(s', first, d)
  {
    hide LostBy, Spoilt;
  }

  lemma {:induction false} StepBegun(g: Geo, s: State, a: Action, first: nat, d: nat)
    requires g.Valid() && Inv(g, s) && Enabled(g, s, a) && s.dead == Some(d) && BegunDead(s, first, d)
    ensures Next(g, s, a).dead == Some(d) && BegunDead(Next(g, s, a), first, d)
  {
    hide Inv, Enqueued, StripeOf, ValidReq, DequeueStep, AdvanceStep, Begin, Resume, Queued, RepairSettled, AllDone,
         DisksOk, LostBy, Spoilt;
    match a
    case Dequeue(t) =>
      DequeueNext(g, s, t);
      var q := Queued(g, s, s.tasks[t].stripe);
      if q != [] {
        SettleBegun(s, DequeueStep(g, s, t), t, q[0], s.dead, Begin(g, s.tasks[t].stripe, q[0]), first, d);
      }
    case Advance(t) =>
      AdvanceSettles(g, s, t);
      var pc := s.tasks[t].pc;
      SettleBegun(s, AdvanceStep(g, s, t), t, pc.req, pc.began,
                  Resume(g, s.tasks[t].stripe, pc.req, pc.phase, pc.ios), first, d);
    case Submit(_) =>
    case Deliver(_) =>
    case Poll(_) =>
    case Effect(_, _, _, _) =>
    case Die(_) =>
  }

  /** Requests submitted after a disk died begin with it dead. */
  lemma {:induction false} RunBegun(g: Geo, run: seq<State>, acts: seq<Action>, m: nat, n: nat, d: nat)
    requires g.Valid() && IsRun(g, run, acts) && m <= n < |run| && run[m].dead == Some(d)
    ensures run[n].dead == Some(d) && BegunDead(run[n], |run[m].submitted|, d)
    decreases n
  {
    hide IsRun, Inv, BegunDead, Next, Enabled;
    if n == m {
      NoneBegun(g, run, acts, m, d);
    } else {
      RunBegun(g, run, acts, m, n - 1, d);
      RunInv(g, run, acts, n - 1);
      RunStep(g, run, acts, n);
      StepBegun(g, run[n - 1], acts[n - 1], |run[m].submitted|, d);
    }
  }

  lemma {:induction false} RunStep(g: Geo, run: seq<State>, acts: seq<Action>, n: nat)
    requires g.Valid() && IsRun(g, run, acts) && 0 < n < |run|
    ensures n - 1 < |acts| && Enabled(g, run[n - 1], acts[n - 1]) && run[n] == Next(g, run[n - 1], acts[n - 1])
  {
    hide Enabled, Next, Initial;
  }

  lemma {:induction false} NoneBegun(g: Geo, run: seq<State>, acts: seq<Action>, m: nat, d: nat)
    requires g.Valid() && IsRun(g, run, acts) && m < |run|
    ensures BegunDead(run[m], |run[m].submitted|, d)
  {
    hide IsRun, Completed, Only, StripeOf;
    forall t | 0 <= t < |run[m].tasks| && run[m].tasks[t].pc.Busy?
      ensures run[m].tasks[t].pc.req.id < |run[m].submitted|
    {
      HandSubmitted(g, run, acts, m, t);
    }
    forall i | 0 <= i < |run[m].log|
      ensures run[m].log[i].req.id < |run[m].submitted|
    {
      CompletedInOrder(g, run, acts, m, i);
    }
  }

  lemma {:induction false} SegOf(segs: seq<Strip>, m: nat, o: nat) returns (k: nat)
    requires 0 < m <= |segs| && segs[0].pos == 0 && o < segs[m - 1].pos + segs[m - 1].len
    requires forall i | 0 <= i < |segs| - 1 :: segs[i].pos + segs[i].len == segs[i + 1].pos
    ensures k < m && segs[k].pos <= o < segs[k].pos + segs[k].len
    decreases m
  {
    if segs[m - 1].pos <= o { k := m - 1; } else { k := SegOf(segs, m - 1, o); }
  }

  lemma {:induction false} SegsTile(g: Geo, r: Req)
    requires g.Valid() && InOneStripe(g, r)
    ensures var segs := Segs(g, r);
            && (forall i | 0 <= i < |segs| - 1 :: segs[i].pos + segs[i].len == segs[i + 1].pos)
            && (forall i | 0 <= i < |segs| :: segs[i].len > 0 && segs[i].pos + segs[i].len <= r.len)
            && (|segs| == 0 <==> r.len == 0)
            && (|segs| > 0 ==> segs[0].pos == 0 && segs[|segs| - 1].pos + segs[|segs| - 1].len == r.len)
  {
    hide Segs, StripeOf, StartOf, InOneStripe, Geo.Parity;
    var p, start, j0 := PlanOf(g, r);
    forall k | 0 <= k < |Segs(g, r)|
      ensures Covers(Segs(g, r)[k], g.strip, p, start, start + r.len, j0 + k)
    {
    }
  }

  /** The disks a write has to update are those that hold its bytes, by the address map, and the
      one that holds its stripe's parity. */
  lemma {:induction false} TouchesByMap(g: Geo, r: Req, d: nat)
    requires g.Valid() && Undivided(g, r)
    ensures Touches(g, r, d)
            <==> d == g.Parity(g.StripeIdx(r.off)) || exists a :: r.off <= a < r.off + r.len && g.Locate(a).0 == d
  {
    hide Geo.Parity, Geo.StripeIdx, Geo.StripeOff, Geo.StripeLen, Geo.Locate, Undivided, SplitStrips;
    InOneStripeIff(g, r);
    SegsTile(g, r);
    var segs := Segs(g, r);
    if k :| 0 <= k < |segs| && segs[k].disk == d {
      SplitFollowsMap(g, r.off, r.len, k, 0);
      assert g.Locate(r.off + segs[k].pos + 0).0 == d;
    }
    if a :| r.off <= a < r.off + r.len && g.Locate(a).0 == d {
      var k := SegOf(segs, |segs|, a - r.off);
      SplitFollowsMap(g, r.off, r.len, k, a - r.off - segs[k].pos);
    }
  }

  /** A write submitted after disk d died, and not given up, is reported as failed exactly if it has
      to update that disk, as data or as parity; a write completed with no disk dead, never. */
  lemma {:induction false} WritesAfterDeath(g: Geo, run: seq<State>, acts: seq<Action>, m: nat, n: nat, i: nat, x: nat)
    requires g.Valid() && IsRun(g, run, acts) && m <= n < |run| && x < g.Stripes() && BenignRun(g, run, acts, x)
    requires i < |run[n].log| && StripeOf(g, run[n].log[i].req) == x
    requires run[n].log[i].req.kind.Write? && Undivided(g, run[n].log[i].req)
    requires Failing(g, run, acts, n, run[n].log[i].req, false) < 2
    ensures var c := run[n].log[i];
            && (run[m].dead.Some? && c.req.id >= |run[m].submitted| ==>
                  (c.status == Failure <==> Touches(g, c.req, run[m].dead.value)))
            && (run[n].dead.None? ==> c.status == Success)
  {
    hide IsRun, BenignRun, Touches, Undivided, StripeOf, Failing;
    AnswerByReports(g, run, acts, n, i);
    WriteFailsIff(g, run, acts, n, i, x);
    if run[m].dead.Some? {
      RunBegun(g, run, acts, m, n, run[m].dead.value);
    }
  }

  // Nothing is ruled out.

  /** The array may start on any disks of the right size. */
  lemma {:induction false} AnyStart(g: Geo, disks: seq<Bytes>) returns (s: State)
    requires g.Valid() && DisksOk(g, disks)
    ensures Initial(g, s) && s.disks == disks && IsRun(g, [s], [])
  {
    s := State(disks, None, seq(g.workers, _ => [InitChannel]), seq(g.workers, _ => []), seq(g.workers, _ => None), [],
               [], [], false);
  }

  /** In every state of a run any request inside the array may be submitted, any pending child I/O
      may be the next to report, either way, and any disk may die if none has. */
  lemma {:induction false} AnythingMayHappen(g: Geo, run: seq<State>, acts: seq<Action>, n: nat)
    requires g.Valid() && IsRun(g, run, acts) && n < |run|
    ensures forall kind: Kind, off: nat, len: nat
              | off < g.Capacity() && off + len <= g.Capacity() && (kind.Write? ==> |kind.data| == len) ::
              Enabled(g, run[n], Submit(Req(|run[n].submitted|, kind, off, len)))
    ensures forall t: nat, i: nat, ok: bool, junk: Bytes
              | t < |run[n].tasks| && run[n].tasks[t].pc.Busy? && i < |run[n].tasks[t].pc.ios|
                && run[n].tasks[t].pc.ios[i].out.Pending? && |junk| == run[n].tasks[t].pc.ios[i].len ::
              Enabled(g, run[n], Effect(t, i, ok, junk))
    ensures forall d: nat | run[n].dead.None? && d < g.ndisks :: Enabled(g, run[n], Die(d))
  {
    var s := run[n];
    RunInv(g, run, acts, n);
    InvSized(g, s);
    hide IsRun, Inv, InRange, Geo.Capacity;
    forall t: nat, i: nat | t < |s.tasks| && s.tasks[t].pc.Busy? && i < |s.tasks[t].pc.ios|
      ensures InRange(s, s.tasks[t].pc.ios[i])
    {
      PendingInRange(g, s, t, i);
    }
  }

  /** Any message may be the next to be delivered or polled, and any drainer may go on. */
  lemma {:induction false} AnyoneMayGoOn(g: Geo, run: seq<State>, acts: seq<Action>, n: nat)
    requires g.Valid() && IsRun(g, run, acts) && n < |run|
    ensures forall w: nat | w < |run[n].ring| && run[n].ring[w] != [] :: Enabled(g, run[n], Deliver(w))
    ensures forall w: nat | w < |run[n].runq| && run[n].runq[w] != [] :: Enabled(g, run[n], Poll(w))
    ensures forall t: nat | t < |run[n].tasks| && run[n].tasks[t].pc.AtDequeue? :: Enabled(g, run[n], Dequeue(t))
  {
    RunInv(g, run, acts, n);
    InvSized(g, run[n]);
    hide IsRun, Inv;
  }

  /** A task goes on when its child I/Os have all reported; one that rebuilds data also at its first
      failed read, all those before it having reported. */
  lemma {:induction false} TasksGoOnWhen(g: Geo, run: seq<State>, acts: seq<Action>, n: nat, t: nat)
    requires g.Valid() && IsRun(g, run, acts) && n < |run| && t < |run[n].tasks| && run[n].tasks[t].pc.Busy?
    ensures var pc := run[n].tasks[t].pc;
            Enabled(g, run[n], Advance(t))
            <==> (forall i | 0 <= i < |pc.ios| :: pc.ios[i].out.Done?)
                 || ((pc.phase.ReadRepair? || pc.phase.RmwRepair?) &&
                     exists i :: 0 <= i < |pc.ios| && Failed(pc.ios[i])
                                 && forall j | 0 <= j < i :: pc.ios[j].out.Done?)
  {
    RunInv(g, run, acts, n);
    InvSized(g, run[n]);
    hide IsRun, Inv, RepairSettled;
    SettledMeans(run[n].tasks[t].pc.ios);
  }

  lemma {:induction false} SettledMeans(ios: seq<ChildIo>)
    ensures RepairSettled(ios)
            <==> AllDone(ios)
                 || exists i :: 0 <= i < |ios| && Failed(ios[i]) && forall j | 0 <= j < i :: ios[j].out.Done?
  {
    if i :| 0 <= i < |ios| && Failed(ios[i]) && AllDone(ios[..i]) {
      forall j | 0 <= j < i
        ensures ios[j].out.Done?
      {
        assert ios[..i][j].out.Done?;
      }
    }
    if i :| 0 <= i < |ios| && Failed(ios[i]) && forall j | 0 <= j < i :: ios[j].out.Done? {
      assert AllDone(ios[..i]);
    }
  }

  /** A child write that fails may leave anything in its range. */
  lemma {:induction false} FailedWriteLeaves(g: Geo, run: seq<State>, acts: seq<Action>, n: nat, t: nat, i: nat,
                                             junk: Bytes)
    requires g.Valid() && IsRun(g, run, acts) && n < |run| && Enabled(g, run[n], Effect(t, i, false, junk))
    requires run[n].tasks[t].pc.ios[i].dir.Out?
    ensures var io, disks := run[n].tasks[t].pc.ios[i], Next(g, run[n], Effect(t, i, false, junk)).disks;
            io.disk < |disks| && io.lo + io.len <= |disks[io.disk]| && disks[io.disk][io.lo..io.lo + io.len] == junk
  {
    RunInv(g, run, acts, n);
    PendingInRange(g, run[n], t, i);
  }
}
