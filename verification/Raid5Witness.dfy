/** A run in which a single data disk fails to write, and the request with it. */
module Raid5Witness {
  import opened XorAlgebra
  import opened Geometry
  import opened Strips
  import opened Parity
  import opened StripeQueues
  import opened Raid5Machine
  import opened Raid5Shape
  import opened Raid5Data
  import opened Raid5Faults

  /** Three disks of one byte each; the parity of their only stripe is on disk 0. */
  function Small(): Geo { Geo(3, 1, 1, 1) }

  /** A write of the whole stripe. */
  function Both(): Req { Req(0, Write([5, 6]), 0, 2) }

  lemma {:induction false} BothIsWhole()
    ensures Small().Valid() && Small().StripeLen() == 2 && Small().Stripes() == 1 && Small().Parity(0) == 0
    ensures Small().Owner(0) == 0 && Small().Base(0) == 0
    ensures StripeOf(Small(), Both()) == 0 && StartOf(Small(), Both()) == 0
    ensures ReqOk(Small(), 0, Both())
  {
  }

  function Fresh(): State {
    State([[0], [0], [0]], None, [[InitChannel]], [[]], [None], [], [], [], false)
  }

  /** The request has been queued and has become its stripe's drainer. */
  function Queueing(): State {
    Fresh().(ring := [[]], chans := [Some(map[0 := StripeQueue([Both()], true)])],
             tasks := [Task(0, 0, AtDequeue)], submitted := [Both()])
  }

  /** The request is in its write phase. */
  predicate InWrites(s: State, ios: seq<ChildIo>) {
    && |s.disks| == 3 && (forall d | 0 <= d < 3 :: |s.disks[d]| == 1)
    && s.dead.None? && !s.panicked && s.log == []
    && s.tasks == [Task(0, 0, Busy(Both(), None, 0, WriteWait, ios))]
    && |ios| == 3
    && forall i | 0 <= i < 3 ::
         ios[i].disk == i && ios[i].lo == 0 && ios[i].len == 1 && ios[i].dir.Out? && |ios[i].dir.data| == 1
  }

  /** The request is on its way. */
  function Arriving(ring: seq<Msg>, runq: seq<Msg>, ready: bool): State {
    Fresh().(ring := [ring], runq := [runq], chans := [if ready then Some(map[]) else None], submitted := [Both()])
  }

  lemma {:induction false} Sent()
    ensures Small().Valid() && Initial(Small(), Fresh()) && Enabled(Small(), Fresh(), Submit(Both()))
    ensures Next(Small(), Fresh(), Submit(Both())) == Arriving([InitChannel, Submitted(Both())], [], false)
  {
    BothIsWhole();
    hide StripeOf, Geo.StripeLen, Geo.Capacity, Geo.Stripes;
    var sent := [InitChannel] + [Submitted(Both())];
    assert sent == [InitChannel, Submitted(Both())];
    assert Fresh().ring[0 := sent] == [sent];
  }

  lemma {:induction false} Delivered(m: Msg, rest: seq<Msg>, runq: seq<Msg>)
    requires Small().Valid()
    ensures Enabled(Small(), Arriving([m] + rest, runq, false), Deliver(0))
    ensures Next(Small(), Arriving([m] + rest, runq, false), Deliver(0)) == Arriving(rest, runq + [m], false)
  {
    var s := Arriving([m] + rest, runq, false);
    assert ([m] + rest)[1..] == rest;
    assert s.ring[0 := rest] == [rest] && s.runq[0 := runq + [m]] == [runq + [m]];
  }

  lemma {:induction false} Polled()
    ensures Small().Valid()
    ensures var s := Arriving([], [InitChannel, Submitted(Both())], false);
            Enabled(Small(), s, Poll(0)) && Next(Small(), s, Poll(0)) == Arriving([], [Submitted(Both())], true)
    ensures var s := Arriving([], [Submitted(Both())], true);
            Enabled(Small(), s, Poll(0)) && Next(Small(), s, Poll(0)) == Queueing()
  {
    BothIsWhole();
    hide StripeOf, Geo.StripeLen, Geo.Capacity, Geo.Stripes, ValidReq;
    assert [Submitted(Both())][1..] == [] && [] + [Both()] == [Both()];
    assert Next(Small(), Arriving([], [Submitted(Both())], true), Poll(0)).runq == Queueing().runq;
  }

  lemma {:induction false} Taken() returns (s: State, ios: seq<ChildIo>)
    ensures Small().Valid() && Enabled(Small(), Queueing(), Dequeue(0))
    ensures s == Next(Small(), Queueing(), Dequeue(0)) && InWrites(s, ios)
    ensures forall i | 0 <= i < 3 :: ios[i].out.Pending?
  {
    BothIsWhole();
    hide BeginFull, Segs, StripeOf, StartOf, Geo.StripeLen, Geo.Stripes, Exp, WritePlan, Geo.Base, Geo.Parity, After;
    BeginFullOk(Small(), 0, Both());
    ios := BeginFull(Small(), 0, Both(), [5, 6]).ios;
    s := Next(Small(), Queueing(), Dequeue(0));
    var fs := Stripe([0, 0], [0]);
    FullWritesPlan(Small(), Both(), fs, ios);
    forall i | 0 <= i < 3
      ensures ios[i].lo == 0 && ios[i].len == 1 && ios[i].dir.Out? && |ios[i].dir.data| == 1
    {
      FullWriteAt(Small(), Both(), fs, ios, i);
    }
  }

  /** Child write i reports. */
  lemma {:induction false} Reported(s: State, ios: seq<ChildIo>, i: nat, ok: bool)
    requires Small().Valid() && InWrites(s, ios) && i < 3 && ios[i].out.Pending?
    ensures Enabled(Small(), s, Effect(0, i, ok, [9]))
    ensures InWrites(Next(Small(), s, Effect(0, i, ok, [9])), ios[i := ios[i].(out := Done(ok, [9]))])
  {
  }

  lemma {:induction false} Answered(s: State, ios: seq<ChildIo>)
    requires Small().Valid() && InWrites(s, ios)
    requires ios[0].out == ios[2].out == Done(true, [9]) && ios[1].out == Done(false, [9])
    ensures Enabled(Small(), s, Advance(0))
    ensures Next(Small(), s, Advance(0)).log == [Completion(Both(), None, 0, Some(1), Failure, [])]
  {
    hide Failures;
    OnlyOne(ios);
  }

  lemma {:induction false} OnlyOne(ios: seq<ChildIo>)
    requires |ios| == 3 && !Failed(ios[0]) && Failed(ios[1]) && !Failed(ios[2])
    ensures |Failures(ios)| == 1
  {
    hide Failures;
    assert 1 in Failures(ios);
    if |Failures(ios)| >= 2 {
      var i, j := TwoFailed(ios);
      assert false;
    }
  }

  /** Of all child I/Os only those to disk d fail. */
  ghost predicate OnlyLoses(g: Geo, run: seq<State>, acts: seq<Action>, d: nat)
    requires g.Valid() && IsRun(g, run, acts)
  {
    forall i | 0 <= i < |acts| && acts[i].Effect? && !acts[i].ok ::
      run[i].tasks[acts[i].t].pc.ios[acts[i].i].disk == d
  }

  lemma {:induction false} Extend(g: Geo, run: seq<State>, acts: seq<Action>, a: Action, d: nat)
    returns (longer: seq<State>, more: seq<Action>)
    requires g.Valid() && IsRun(g, run, acts) && OnlyLoses(g, run, acts, d) && Enabled(g, run[|acts|], a)
    requires a.Effect? && !a.ok ==> run[|acts|].tasks[a.t].pc.ios[a.i].disk == d
    ensures more == acts + [a] && IsRun(g, longer, more) && OnlyLoses(g, longer, more, d)
    ensures longer[|more|] == Next(g, run[|acts|], a)
  {
    hide Next, Initial;
    longer, more := run + [Next(g, run[|acts|], a)], acts + [a];
  }

  /** A request submitted to the fresh array, up to its write phase. */
  lemma {:induction false} UpToWrites() returns (run: seq<State>, acts: seq<Action>, ios: seq<ChildIo>)
    ensures Small().Valid() && IsRun(Small(), run, acts) && OnlyLoses(Small(), run, acts, 1)
    ensures InWrites(run[|acts|], ios) && forall i | 0 <= i < 3 :: ios[i].out.Pending?
  {
    BothIsWhole();
    Sent();
    Delivered(InitChannel, [Submitted(Both())], []);
    Delivered(Submitted(Both()), [], [InitChannel]);
    Polled();
    assert [InitChannel] + [Submitted(Both())] == [InitChannel, Submitted(Both())];
    assert [Submitted(Both())] + [] == [Submitted(Both())] && [] + [InitChannel] == [InitChannel];
    hide Enabled, Next, Initial, InWrites, Fresh, Arriving, Queueing, Small, OnlyLoses;
    run, acts := [Fresh()], [];
    assert OnlyLoses(Small(), run, acts, 1) by { NoActs(run[0]); }
    run, acts := Extend(Small(), run, acts, Submit(Both()), 1);
    run, acts := Extend(Small(), run, acts, Deliver(0), 1);
    run, acts := Extend(Small(), run, acts, Deliver(0), 1);
    run, acts := Extend(Small(), run, acts, Poll(0), 1);
    run, acts := Extend(Small(), run, acts, Poll(0), 1);
    var s;
    s, ios := Taken();
    run, acts := Extend(Small(), run, acts, Dequeue(0), 1);
  }

  lemma {:induction false} NoActs(s: State)
    requires Small().Valid() && Initial(Small(), s)
    ensures IsRun(Small(), [s], []) && OnlyLoses(Small(), [s], [], 1)
  {
  }

  lemma {:induction false} WriteDisk(s: State, ios: seq<ChildIo>, i: nat)
    requires InWrites(s, ios) && i < 3
    ensures |s.tasks| == 1 && s.tasks[0].pc.Busy? && s.tasks[0].pc.ios == ios && |ios| == 3 && ios[i].disk == i
    ensures s.dead.None?
  {
  }

  /** A write of which one child write fails, that of a data disk, is reported as failed. */
  lemma {:induction false} OneDataDiskFails() returns (g: Geo, run: seq<State>, acts: seq<Action>)
    ensures g.Valid() && IsRun(g, run, acts) && OnlyLoses(g, run, acts, 1) && g.Parity(0) == 0
    ensures run[|acts|].log == [Completion(Both(), None, 0, Some(1), Failure, [])]
  {
    BothIsWhole();
    hide Enabled, Next, Initial, InWrites, Small, OnlyLoses, IsRun;
    g := Small();
    var ios;
    run, acts, ios := UpToWrites();
    RunLength(g, run, acts);
    WriteDisk(run[|acts|], ios, 0);
    for i := 0 to 3
      invariant g.Valid() && IsRun(g, run, acts) && OnlyLoses(g, run, acts, 1)
      invariant |run| == |acts| + 1 && InWrites(run[|acts|], ios) && |ios| == 3
      invariant forall k | 0 <= k < 3 :: ios[k].out == if k < i then Done(k != 1, [9]) else Pending
    {
      WriteDisk(run[|acts|], ios, i);
      Reported(run[|acts|], ios, i, i != 1);
      RunLength(g, run, acts);
      run, acts := Extend(g, run, acts, Effect(0, i, i != 1, [9]), 1);
      RunLength(g, run, acts);
      ios := ios[i := ios[i].(out := Done(i != 1, [9]))];
    }
    Answered(run[|acts|], ios);
    run, acts := Extend(g, run, acts, Advance(0), 1);
  }

  lemma {:induction false} RunLength(g: Geo, run: seq<State>, acts: seq<Action>)
    requires g.Valid() && IsRun(g, run, acts)
    ensures |run| == |acts| + 1
  {
  }
}
