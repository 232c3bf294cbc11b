/** Serialisation and order, for every run and every pattern of child failures: one drainer
    per stripe, no request lost or repeated, first in first out, no panic. */
module Raid5Order {
  import opened XorAlgebra
  import opened Geometry
  import opened StripeQueues
  import opened Raid5Machine
  import opened Raid5Shape

  // Requests of one stripe, in order.

  function Only(g: Geo, rs: seq<Req>, stripe: nat): seq<Req>
    requires g.Valid()
  {
    if |rs| == 0 then []
    else
      Only(g, rs[..|rs| - 1], stripe) + (if StripeOf(g, rs[|rs| - 1]) == stripe then [rs[|rs| - 1]] else [])
  }

  function Payload(msgs: seq<Msg>): seq<Req> {
    if |msgs| == 0 then []
    else Payload(msgs[..|msgs| - 1]) + (if msgs[|msgs| - 1].Submitted? then [msgs[|msgs| - 1].req] else [])
  }

  /** The requests completed so far. */
  function Completed(log: seq<Completion>): (r: seq<Req>)
    ensures |r| == |log| && forall i | 0 <= i < |log| :: r[i] == log[i].req
  {
    if |log| == 0 then [] else Completed(log[..|log| - 1]) + [log[|log| - 1].req]
  }

  lemma {:induction false} OnlyPush(g: Geo, rs: seq<Req>, r: Req, stripe: nat)
    requires g.Valid()
    ensures Only(g, rs + [r], stripe) == Only(g, rs, stripe) + (if StripeOf(g, r) == stripe then [r] else [])
  {
  }

  lemma {:induction false} OnlyConcat(g: Geo, a: seq<Req>, b: seq<Req>, stripe: nat)
    requires g.Valid()
    ensures Only(g, a + b, stripe) == Only(g, a, stripe) + Only(g, b, stripe)
    decreases |b|
  {
    if |b| == 0 {
      assert a + b == a;
    } else {
      OnlyConcat(g, a, b[..|b| - 1], stripe);
      assert (a + b)[..|a + b| - 1] == a + b[..|b| - 1];
    }
  }

  lemma {:induction false} PayloadConcat(a: seq<Msg>, b: seq<Msg>)
    ensures Payload(a + b) == Payload(a) + Payload(b)
    decreases |b|
  {
    if |b| == 0 {
      assert a + b == a;
    } else {
      PayloadConcat(a, b[..|b| - 1]);
      assert (a + b)[..|a + b| - 1] == a + b[..|b| - 1];
    }
  }

  lemma {:induction false} PayloadOne(m: Msg)
    ensures Payload([m]) == if m.Submitted? then [m.req] else []
  {
  }

  lemma {:induction false} OnlyOne(g: Geo, r: Req, stripe: nat)
    requires g.Valid()
    ensures Only(g, [r], stripe) == if StripeOf(g, r) == stripe then [r] else []
  {
  }

  /** A message at the head of those coming, seen by one stripe. */
  lemma {:induction false} ComingHead(g: Geo, m: Msg, rest: seq<Msg>, stripe: nat)
    requires g.Valid()
    ensures Only(g, Payload([m] + rest), stripe)
            == (if m.Submitted? && StripeOf(g, m.req) == stripe then [m.req] else []) + Only(g, Payload(rest), stripe)
  {
    hide Only, Payload;
    PayloadConcat([m], rest);
    PayloadOne(m);
    OnlyConcat(g, Payload([m]), Payload(rest), stripe);
    if m.Submitted? {
      OnlyOne(g, m.req, stripe);
    } else {
      assert Payload([m]) + Payload(rest) == Payload(rest);
    }
  }

  lemma {:induction false} ComingTail(g: Geo, msgs: seq<Msg>, r: Req, stripe: nat)
    requires g.Valid()
    ensures Only(g, Payload(msgs + [Submitted(r)]), stripe)
            == Only(g, Payload(msgs), stripe) + (if StripeOf(g, r) == stripe then [r] else [])
  {
  }

  lemma {:induction false} CompletedPush(log: seq<Completion>, c: Completion)
    ensures Completed(log + [c]) == Completed(log) + [c.req]
  {
  }

  // The invariant.

  ghost predicate Sized(g: Geo, s: State)
    requires g.Valid()
  {
    && |s.disks| == g.ndisks && (forall d | 0 <= d < g.ndisks :: |s.disks[d]| == g.child)
    && |s.ring| == |s.runq| == |s.chans| == g.workers
    && (s.dead.Some? ==> s.dead.value < g.ndisks)
    && !s.panicked
  }

  /** Messages on their way to worker w, oldest first. */
  function Coming(s: State, w: nat): seq<Msg>
    requires w < |s.runq| && w < |s.ring|
  {
    s.runq[w] + s.ring[w]
  }

  ghost predicate MsgOk(g: Geo, m: Msg, w: nat)
    requires g.Valid()
  {
    m.Submitted? ==> ValidReq(g, m.req) && g.Owner(StripeOf(g, m.req)) == w
  }

  /** Until a worker has its channel, the message that makes it is the next one. */
  ghost predicate MsgsOk(g: Geo, coming: seq<Msg>, ready: bool, w: nat)
    requires g.Valid()
  {
    && (!ready ==> |coming| > 0 && coming[0].InitChannel?)
    && (forall i | 0 <= i < |coming| :: MsgOk(g, coming[i], w))
    && (forall i | 0 <= i < |coming| :: coming[i].InitChannel? ==> i == 0 && !ready)
  }

  predicate Live(s: State, t: nat) {
    t < |s.tasks| && !s.tasks[t].pc.Finished?
  }

  /** The stripe has a queue on the worker that owns it. */
  predicate InTable(g: Geo, s: State, stripe: nat)
    requires g.Valid() && |s.chans| == g.workers
  {
    s.chans[g.Owner(stripe)].Some? && stripe in s.chans[g.Owner(stripe)].value
  }

  function Queued(g: Geo, s: State, stripe: nat): seq<Req>
    requires g.Valid() && |s.chans| == g.workers
  {
    if InTable(g, s, stripe) then s.chans[g.Owner(stripe)].value[stripe].pending else []
  }

  ghost predicate TaskOk(g: Geo, s: State, task: Task)
    requires g.Valid() && |s.chans| == g.workers
  {
    && task.stripe < g.Stripes() && task.worker == g.Owner(task.stripe) && InTable(g, s, task.stripe)
    && (task.pc.Busy? ==> BusyOk(g, task.stripe, task.pc.req, task.pc.phase, task.pc.ios))
  }

  /** No two live tasks drain the same stripe. */
  ghost predicate OneDrainer(s: State) {
    forall t, u | 0 <= t < u < |s.tasks| && Live(s, t) && Live(s, u) :: s.tasks[t].stripe != s.tasks[u].stripe
  }

  ghost predicate HasDrainer(s: State, stripe: nat) {
    exists t: nat :: Live(s, t) && s.tasks[t].stripe == stripe
  }

  /** Queue entries sit on the owner only, have a drainer, and hold valid requests. */
  ghost predicate TableOk(g: Geo, s: State, w: nat)
    requires g.Valid() && |s.chans| == g.workers && w < g.workers
  {
    s.chans[w].Some? ==>
      forall stripe | stripe in s.chans[w].value ::
        && g.Owner(stripe) == w && HasDrainer(s, stripe)
        && s.chans[w].value[stripe].draining
        && forall i | 0 <= i < |s.chans[w].value[stripe].pending| ::
             ReqOk(g, stripe, s.chans[w].value[stripe].pending[i])
  }

  /** The request a task has in hand. */
  function Current(pc: Pc): seq<Req> {
    if pc.Busy? then [pc.req] else []
  }

  /** Every request ever submitted for the drained stripe of task t is, in submission order:
      completed, in hand, queued, or still on its way. */
  ghost predicate ConservedBy(g: Geo, s: State, task: Task)
    requires g.Valid() && Sized(g, s)
  {
    Only(g, s.submitted, task.stripe)
    == Only(g, Completed(s.log), task.stripe) + Current(task.pc) + Queued(g, s, task.stripe)
       + Only(g, Payload(Coming(s, g.Owner(task.stripe))), task.stripe)
  }

  ghost predicate ConservedIdle(g: Geo, s: State, stripe: nat)
    requires g.Valid() && Sized(g, s)
  {
    Only(g, s.submitted, stripe)
    == Only(g, Completed(s.log), stripe) + Only(g, Payload(Coming(s, g.Owner(stripe))), stripe)
  }

  ghost predicate Inv(g: Geo, s: State)
    requires g.Valid()
  {
    Sized(g, s) && Orderly(g, s)
  }

  ghost predicate Orderly(g: Geo, s: State)
    requires g.Valid() && Sized(g, s)
  {
    && (forall w | 0 <= w < g.workers :: MsgsOk(g, Coming(s, w), s.chans[w].Some?, w))
    && (forall t: nat | Live(s, t) :: TaskOk(g, s, s.tasks[t]))
    && OneDrainer(s)
    && (forall w | 0 <= w < g.workers :: TableOk(g, s, w))
    && (forall t: nat | Live(s, t) :: ConservedBy(g, s, s.tasks[t]))
    && (forall stripe: nat | !InTable(g, s, stripe) :: ConservedIdle(g, s, stripe))
  }

  lemma {:induction false} InitialInv(g: Geo, s: State)
    requires g.Valid() && Initial(g, s)
    ensures Inv(g, s)
  {
    forall w | 0 <= w < g.workers
      ensures MsgsOk(g, Coming(s, w), s.chans[w].Some?, w)
    {
      assert Coming(s, w) == [InitChannel];
    }
    forall stripe: nat
      ensures !InTable(g, s, stripe) && ConservedIdle(g, s, stripe)
    {
      var w := g.Owner(stripe);
      assert s.chans[w].None?;
      assert Coming(s, w) == [InitChannel];
      PayloadOne(InitChannel);
    }
    assert forall w | 0 <= w < g.workers :: TableOk(g, s, w);
  }

  lemma {:induction false} SubmitInv(g: Geo, s: State, r: Req)
    requires g.Valid() && Inv(g, s) && Enabled(g, s, Submit(r))
    ensures Inv(g, SubmitStep(g, s, r))
  {
    hide Only, Payload, Completed, BusyOk, ReqOk, ValidReq, StripeOf;
    var s', w0 := SubmitStep(g, s, r), g.Owner(StripeOf(g, r));
    assert Coming(s', w0) == Coming(s, w0) + [Submitted(r)];
    forall w | 0 <= w < g.workers
      ensures MsgsOk(g, Coming(s', w), s'.chans[w].Some?, w)
    {
      if w != w0 { assert Coming(s', w) == Coming(s, w); }
    }
    forall stripe: nat
      ensures var w := g.Owner(stripe);
              var more := if StripeOf(g, r) == stripe then [r] else [];
              && Only(g, s'.submitted, stripe) == Only(g, s.submitted, stripe) + more
              && Only(g, Payload(Coming(s', w)), stripe) == Only(g, Payload(Coming(s, w)), stripe) + more
    {
      OnlyPush(g, s.submitted, r, stripe);
      if g.Owner(stripe) == w0 {
        ComingTail(g, Coming(s, w0), r, stripe);
      } else {
        assert Coming(s', g.Owner(stripe)) == Coming(s, g.Owner(stripe));
      }
    }
    forall t: nat | Live(s', t)
      ensures TaskOk(g, s', s'.tasks[t]) && ConservedBy(g, s', s'.tasks[t])
    {
      assert Live(s, t);
    }
    forall stripe: nat | !InTable(g, s', stripe)
      ensures ConservedIdle(g, s', stripe)
    {
      assert !InTable(g, s, stripe);
    }
    forall w | 0 <= w < g.workers
      ensures TableOk(g, s', w)
    {
      SameTasks(s, s');
      assert TableOk(g, s, w);
    }
  }

  // Single parts of the invariant.

  lemma {:induction false} TableAt(g: Geo, s: State, w: nat)
    requires g.Valid() && Inv(g, s) && w < g.workers
    ensures TableOk(g, s, w)
  {
  }

  lemma {:induction false} TaskAt(g: Geo, s: State, t: nat)
    requires g.Valid() && Inv(g, s) && Live(s, t)
    ensures TaskOk(g, s, s.tasks[t]) && ConservedBy(g, s, s.tasks[t])
  {
  }

  lemma {:induction false} IdleAt(g: Geo, s: State, stripe: nat)
    requires g.Valid() && Inv(g, s) && !InTable(g, s, stripe)
    ensures ConservedIdle(g, s, stripe)
  {
  }

  /** Drainers depend only on the tasks. */
  lemma {:induction false} SameTasks(s: State, s': State)
    requires s.tasks == s'.tasks
    ensures forall t: nat :: Live(s, t) <==> Live(s', t)
    ensures forall stripe: nat :: HasDrainer(s, stripe) <==> HasDrainer(s', stripe)
    ensures OneDrainer(s) <==> OneDrainer(s')
  {
  }

  /** Steps that change only disks, their fate, or where on its way a message is. */
  lemma {:induction false} QuietInv(g: Geo, s: State, s': State)
    requires g.Valid() && Inv(g, s) && Sized(g, s')
    requires s'.tasks == s.tasks && s'.chans == s.chans && s'.submitted == s.submitted && s'.log == s.log
    requires forall w | 0 <= w < g.workers :: Coming(s', w) == Coming(s, w)
    ensures Inv(g, s')
  {
    hide Only, Payload, Completed, BusyOk, ReqOk, MsgsOk;
    SameTasks(s, s');
    forall w | 0 <= w < g.workers
      ensures TableOk(g, s', w)
    {
      assert TableOk(g, s, w);
    }
    forall t: nat | Live(s', t)
      ensures TaskOk(g, s', s'.tasks[t]) && ConservedBy(g, s', s'.tasks[t])
    {
      assert Live(s, t);
    }
    forall stripe: nat | !InTable(g, s', stripe)
      ensures ConservedIdle(g, s', stripe)
    {
      assert !InTable(g, s, stripe);
    }
  }

  lemma {:induction false} DeliverInv(g: Geo, s: State, w: nat)
    requires g.Valid() && Inv(g, s) && Enabled(g, s, Deliver(w))
    ensures Inv(g, DeliverStep(g, s, w))
  {
    var s' := DeliverStep(g, s, w);
    forall v | 0 <= v < g.workers
      ensures Coming(s', v) == Coming(s, v)
    {
    }
    QuietInv(g, s, s');
  }

  /** The head of worker w's run queue is the oldest message coming to it. */
  lemma {:induction false} PollHead(g: Geo, s: State, w: nat)
    requires g.Valid() && Inv(g, s) && Enabled(g, s, Poll(w))
    ensures w < g.workers && !PollStep(g, s, w).panicked
    ensures var s', m := PollStep(g, s, w), s.runq[w][0];
            && |s'.runq| == |s'.ring| == |s'.chans| == g.workers
            && Coming(s, w) == [m] + Coming(s', w)
            && (forall v | 0 <= v < g.workers && v != w :: Coming(s', v) == Coming(s, v))
            && (m.InitChannel? <==> s.chans[w].None?)
            && MsgsOk(g, Coming(s', w), true, w)
            && (m.Submitted? ==> ValidReq(g, m.req) && g.Owner(StripeOf(g, m.req)) == w)
  {
    hide ValidReq, StripeOf, TaskOk, TableOk, ConservedBy, ConservedIdle, OneDrainer, Enqueued;
    var s', m := PollStep(g, s, w), s.runq[w][0];
    assert MsgsOk(g, Coming(s, w), s.chans[w].Some?, w);
    assert Coming(s, w)[0] == m && MsgOk(g, m, w);
    assert Coming(s', w) == Coming(s, w)[1..];
    forall i | 0 <= i < |Coming(s', w)|
      ensures MsgOk(g, Coming(s', w)[i], w) && !Coming(s', w)[i].InitChannel?
    {
      assert Coming(s', w)[i] == Coming(s, w)[i + 1];
    }
  }

  lemma {:induction false} PollInitInv(g: Geo, s: State, w: nat)
    requires g.Valid() && Inv(g, s) && Enabled(g, s, Poll(w)) && s.runq[w][0].InitChannel?
    ensures Inv(g, PollStep(g, s, w))
  {
    PollHead(g, s, w);
    hide Only, Payload, Completed, BusyOk, ReqOk, MsgsOk;
    var s' := PollStep(g, s, w);
    SameTasks(s, s');
    forall stripe: nat
      ensures InTable(g, s', stripe) <==> InTable(g, s, stripe)
      ensures Queued(g, s', stripe) == Queued(g, s, stripe)
      ensures Only(g, Payload(Coming(s', g.Owner(stripe))), stripe)
              == Only(g, Payload(Coming(s, g.Owner(stripe))), stripe)
    {
      if g.Owner(stripe) == w { ComingHead(g, InitChannel, Coming(s', w), stripe); }
    }
    forall v | 0 <= v < g.workers
      ensures MsgsOk(g, Coming(s', v), s'.chans[v].Some?, v) && TableOk(g, s', v)
    {
      assert TableOk(g, s, v);
    }
    forall t: nat | Live(s', t)
      ensures TaskOk(g, s', s'.tasks[t]) && ConservedBy(g, s', s'.tasks[t])
    {
      assert Live(s, t);
    }
    forall stripe: nat | !InTable(g, s', stripe)
      ensures ConservedIdle(g, s', stripe)
    {
      assert !InTable(g, s, stripe);
    }
  }

  /** What a poll of a request's task does to each stripe's queue. */
  lemma {:induction false} PollQueues(g: Geo, s: State, w: nat)
    requires g.Valid() && Inv(g, s) && Enabled(g, s, Poll(w)) && s.runq[w][0].Submitted?
    ensures var s', r := PollStep(g, s, w), s.runq[w][0].req;
            var st := StripeOf(g, r);
            && Sized(g, s') && ReqOk(g, st, r) && g.Owner(st) == w && InTable(g, s', st)
            && Queued(g, s', st) == Queued(g, s, st) + [r]
            && s'.chans[w].value[st].draining
            && (if InTable(g, s, st) then s'.tasks == s.tasks else s'.tasks == s.tasks + [Task(w, st, AtDequeue)])
            && Only(g, Payload(Coming(s, w)), st) == [r] + Only(g, Payload(Coming(s', w)), st)
  {
    PollHead(g, s, w);
    hide Only, Payload, Completed, BusyOk, MsgsOk;
    var s', r := PollStep(g, s, w), s.runq[w][0].req;
    StripeOfAddress(g, r.off);
    ComingHead(g, Submitted(r), Coming(s', w), StripeOf(g, r));
    assert TableOk(g, s, w);
  }

  lemma {:induction false} PollOtherStripe(g: Geo, s: State, w: nat, stripe: nat)
    requires g.Valid() && Inv(g, s) && Enabled(g, s, Poll(w)) && s.runq[w][0].Submitted?
    requires stripe != StripeOf(g, s.runq[w][0].req)
    ensures var s' := PollStep(g, s, w);
            && Sized(g, s')
            && (InTable(g, s', stripe) <==> InTable(g, s, stripe))
            && (InTable(g, s, stripe) ==>
                  s'.chans[g.Owner(stripe)].value[stripe] == s.chans[g.Owner(stripe)].value[stripe])
            && Queued(g, s', stripe) == Queued(g, s, stripe)
            && Only(g, Payload(Coming(s', g.Owner(stripe))), stripe)
               == Only(g, Payload(Coming(s, g.Owner(stripe))), stripe)
  {
    PollHead(g, s, w);
    hide Only, Payload, Completed, BusyOk, MsgsOk, ReqOk, ValidReq, StripeOf;
    var s', r := PollStep(g, s, w), s.runq[w][0].req;
    if g.Owner(stripe) == w { ComingHead(g, Submitted(r), Coming(s', w), stripe); }
  }

  /** Tasks only appear or change phase; a live one keeps its stripe. */
  lemma {:induction false} DrainersKept(s: State, s': State)
    requires |s.tasks| <= |s'.tasks|
    requires forall t: nat | Live(s, t) :: Live(s', t) && s'.tasks[t].stripe == s.tasks[t].stripe
    ensures forall stripe: nat | HasDrainer(s, stripe) :: HasDrainer(s', stripe)
  {
  }

  lemma {:induction false} PollSubmittedInv(g: Geo, s: State, w: nat)
    requires g.Valid() && Inv(g, s) && Enabled(g, s, Poll(w)) && s.runq[w][0].Submitted?
    ensures Inv(g, PollStep(g, s, w))
  {
    var s', r := PollStep(g, s, w), s.runq[w][0].req;
    var st := StripeOf(g, r);
    PollHead(g, s, w);
    PollQueues(g, s, w);
    forall stripe: nat | stripe != st
      ensures InTable(g, s', stripe) <==> InTable(g, s, stripe)
      ensures Queued(g, s', stripe) == Queued(g, s, stripe)
      ensures Only(g, Payload(Coming(s', g.Owner(stripe))), stripe)
              == Only(g, Payload(Coming(s, g.Owner(stripe))), stripe)
    {
      PollOtherStripe(g, s, w, stripe);
    }
    PollTables(g, s, w);
    PollTasks(g, s, w);
    hide Only, Payload, Completed, BusyOk, ReqOk, MsgsOk, PollStep, TaskOk, TableOk;
    forall stripe: nat | !InTable(g, s', stripe)
      ensures ConservedIdle(g, s', stripe)
    {
      assert ConservedIdle(g, s, stripe);
    }
  }

  lemma {:induction false} PollDrainers(g: Geo, s: State, w: nat)
    requires g.Valid() && Inv(g, s) && Enabled(g, s, Poll(w)) && s.runq[w][0].Submitted?
    ensures HasDrainer(PollStep(g, s, w), StripeOf(g, s.runq[w][0].req))
    ensures forall stripe: nat | HasDrainer(s, stripe) :: HasDrainer(PollStep(g, s, w), stripe)
  {
    hide PollStep, Orderly, ReqOk, Only, Payload;
    var s', st := PollStep(g, s, w), StripeOf(g, s.runq[w][0].req);
    PollQueues(g, s, w);
    TableAt(g, s, w);
    forall t: nat | Live(s, t)
      ensures Live(s', t) && s'.tasks[t].stripe == s.tasks[t].stripe
    {
    }
    DrainersKept(s, s');
    if !InTable(g, s, st) {
      assert Live(s', |s.tasks|);
    }
  }

  /** The tables after a poll: one queue longer by the request, the rest unchanged. */
  lemma {:induction false} PollTableIs(g: Geo, s: State, w: nat)
    requires g.Valid() && Inv(g, s) && Enabled(g, s, Poll(w)) && s.runq[w][0].Submitted?
    ensures var s', r := PollStep(g, s, w), s.runq[w][0].req;
            && s.chans[w].Some?
            && |s'.chans| == |s.chans|
            && s'.chans[w] == Some(s.chans[w].value[StripeOf(g, r) :=
                                   StripeQueue(Queued(g, s, StripeOf(g, r)) + [r], true)])
            && forall v | 0 <= v < g.workers && v != w :: s'.chans[v] == s.chans[v]
  {
    PollHead(g, s, w);
    hide Orderly, StripeOf, Payload, Only;
  }

  lemma {:induction false} PollTable(g: Geo, s: State, w: nat, v: nat)
    requires g.Valid() && Inv(g, s) && Enabled(g, s, Poll(w)) && s.runq[w][0].Submitted? && v < g.workers
    ensures Sized(g, PollStep(g, s, w)) && TableOk(g, PollStep(g, s, w), v)
  {
    hide PollStep, Orderly, HasDrainer, ReqOk, StripeOf, Payload, Only;
    PollQueues(g, s, w);
    PollDrainers(g, s, w);
    PollTableIs(g, s, w);
    TableAt(g, s, v);
    TableAt(g, s, w);
  }

  lemma {:induction false} PollMsgs(g: Geo, s: State, w: nat)
    requires g.Valid() && Inv(g, s) && Enabled(g, s, Poll(w)) && s.runq[w][0].Submitted?
    ensures var s' := PollStep(g, s, w);
            && Sized(g, s')
            && forall v | 0 <= v < g.workers :: MsgsOk(g, Coming(s', v), s'.chans[v].Some?, v)
  {
    hide Only, Payload, MsgsOk, TableOk, TaskOk, OneDrainer, ConservedBy, ConservedIdle, StripeOf, ReqOk;
    PollHead(g, s, w);
    PollQueues(g, s, w);
  }

  lemma {:induction false} PollTables(g: Geo, s: State, w: nat)
    requires g.Valid() && Inv(g, s) && Enabled(g, s, Poll(w)) && s.runq[w][0].Submitted?
    ensures var s' := PollStep(g, s, w);
            && Sized(g, s')
            && (forall v | 0 <= v < g.workers :: MsgsOk(g, Coming(s', v), s'.chans[v].Some?, v))
            && (forall v | 0 <= v < g.workers :: TableOk(g, s', v))
  {
    PollMsgs(g, s, w);
    hide PollStep, MsgsOk, TableOk, Orderly;
    forall v | 0 <= v < g.workers
      ensures TableOk(g, PollStep(g, s, w), v)
    {
      PollTable(g, s, w, v);
    }
  }

  lemma {:induction false} PollTask(g: Geo, s: State, w: nat, t: nat)
    requires g.Valid() && Inv(g, s) && Enabled(g, s, Poll(w)) && s.runq[w][0].Submitted?
    requires Live(PollStep(g, s, w), t)
    ensures var s', st := PollStep(g, s, w), StripeOf(g, s.runq[w][0].req);
            && Sized(g, s') && TaskOk(g, s', s'.tasks[t]) && ConservedBy(g, s', s'.tasks[t])
            && (if t < |s.tasks| then Live(s, t) && s'.tasks[t] == s.tasks[t]
                else t == |s.tasks| && s'.tasks[t].stripe == st && !InTable(g, s, st))
  {
    hide Only, Payload, Completed, BusyOk, PollStep, Orderly, StripeOf;
    var s', r := PollStep(g, s, w), s.runq[w][0].req;
    var st := StripeOf(g, r);
    PollQueues(g, s, w);
    PollSame(g, s, w);
    if t < |s.tasks| {
      TaskAt(g, s, t);
      if s.tasks[t].stripe != st { PollOtherStripe(g, s, w, s.tasks[t].stripe); }
    } else {
      IdleAt(g, s, st);
    }
  }

  lemma {:induction false} PollTasks(g: Geo, s: State, w: nat)
    requires g.Valid() && Inv(g, s) && Enabled(g, s, Poll(w)) && s.runq[w][0].Submitted?
    ensures var s' := PollStep(g, s, w);
            && Sized(g, s') && OneDrainer(s')
            && (forall t: nat | Live(s', t) :: TaskOk(g, s', s'.tasks[t]))
            && (forall t: nat | Live(s', t) :: ConservedBy(g, s', s'.tasks[t]))
  {
    PollQueues(g, s, w);
    hide Only, Payload, Completed, BusyOk, PollStep, ConservedBy, MsgsOk, TableOk, ConservedIdle;
    var s' := PollStep(g, s, w);
    forall t: nat | Live(s', t)
      ensures TaskOk(g, s', s'.tasks[t]) && ConservedBy(g, s', s'.tasks[t])
      ensures if t < |s.tasks| then Live(s, t) && s'.tasks[t] == s.tasks[t]
              else t == |s.tasks| && s'.tasks[t].stripe == StripeOf(g, s.runq[w][0].req)
                   && !InTable(g, s, s'.tasks[t].stripe)
    {
      PollTask(g, s, w, t);
    }
  }

  lemma {:induction false} PollSame(g: Geo, s: State, w: nat)
    requires g.Valid() && Enabled(g, s, Poll(w))
    ensures PollStep(g, s, w).submitted == s.submitted && PollStep(g, s, w).log == s.log
  {
  }

  // Steps of a drainer touch its own stripe only.

  /** Requests of task t's stripe that are completed, in hand or queued, in order. */
  function Gone(g: Geo, s: State, t: nat): seq<Req>
    requires g.Valid() && Sized(g, s) && t < |s.tasks|
  {
    Only(g, Completed(s.log), s.tasks[t].stripe) + Current(s.tasks[t].pc) + Queued(g, s, s.tasks[t].stripe)
  }

  /** s' is s after a stretch of task t: its phase, its stripe's queue and the log may differ. */
  ghost predicate OwnStripeOnly(g: Geo, s: State, s': State, t: nat)
    requires g.Valid() && Sized(g, s) && Sized(g, s') && Live(s, t)
  {
    var stripe := s.tasks[t].stripe;
    && s'.ring == s.ring && s'.runq == s.runq && s'.submitted == s.submitted
    && |s'.tasks| == |s.tasks| && s'.tasks[t].stripe == stripe && s'.tasks[t].worker == s.tasks[t].worker
    && (forall u | 0 <= u < |s.tasks| && u != t :: s'.tasks[u] == s.tasks[u])
    && (forall v | 0 <= v < g.workers :: s'.chans[v].Some? == s.chans[v].Some?)
    && (forall v, x | 0 <= v < g.workers && s.chans[v].Some? && !(v == g.Owner(stripe) && x == stripe) ::
          (x in s'.chans[v].value <==> x in s.chans[v].value)
          && (x in s.chans[v].value ==> s'.chans[v].value[x] == s.chans[v].value[x]))
    && (s'.log == s.log || exists c :: s'.log == s.log + [c] && StripeOf(g, c.req) == stripe)
  }

  /** What that stretch must keep for its own stripe. */
  ghost predicate OwnStripeKept(g: Geo, s: State, s': State, t: nat)
    requires g.Valid() && Sized(g, s) && Sized(g, s') && Live(s, t) && |s'.tasks| == |s.tasks|
  {
    var task := s'.tasks[t];
    && Gone(g, s', t) == Gone(g, s, t)
    && (if task.pc.Finished? then !InTable(g, s', task.stripe)
        else TaskOk(g, s', task)
             && s'.chans[g.Owner(task.stripe)].value[task.stripe].draining
             && forall i | 0 <= i < |Queued(g, s', task.stripe)| ::
                  ReqOk(g, task.stripe, Queued(g, s', task.stripe)[i]))
  }

  lemma {:induction false} OtherStripeLog(g: Geo, s: State, s': State, t: nat, stripe: nat)
    requires g.Valid() && Sized(g, s) && Sized(g, s') && Live(s, t) && OwnStripeOnly(g, s, s', t)
    requires stripe != s.tasks[t].stripe
    ensures Only(g, Completed(s'.log), stripe) == Only(g, Completed(s.log), stripe)
  {
  }

  lemma {:induction false} SameComing(g: Geo, s: State, s': State, w: nat)
    requires w < |s.ring| && w < |s.runq| && s'.ring == s.ring && s'.runq == s.runq
    ensures Coming(s', w) == Coming(s, w)
  {
  }

  lemma {:induction false} MoveOther(g: Geo, s: State, s': State, t: nat, u: nat)
    requires g.Valid() && Inv(g, s) && Sized(g, s') && Live(s, t) && OwnStripeOnly(g, s, s', t)
    requires u != t && Live(s', u)
    ensures Live(s, u) && s'.tasks[u] == s.tasks[u] && s.tasks[u].stripe != s.tasks[t].stripe
    ensures TaskOk(g, s', s'.tasks[u]) && ConservedBy(g, s', s'.tasks[u])
  {
    hide Only, Payload, Completed, BusyOk, TableOk, MsgsOk, ConservedIdle, StripeOf;
    var stripe := s.tasks[u].stripe;
    TaskAt(g, s, u);
    assert stripe != s.tasks[t].stripe;
    OtherStripeLog(g, s, s', t, stripe);
    SameComing(g, s, s', g.Owner(stripe));
  }

  lemma {:induction false} MoveOwn(g: Geo, s: State, s': State, t: nat)
    requires g.Valid() && Inv(g, s) && Sized(g, s') && Live(s, t)
    requires OwnStripeOnly(g, s, s', t) && OwnStripeKept(g, s, s', t)
    ensures Live(s', t) ==> TaskOk(g, s', s'.tasks[t]) && ConservedBy(g, s', s'.tasks[t])
    ensures !Live(s', t) ==> !InTable(g, s', s.tasks[t].stripe) && ConservedIdle(g, s', s.tasks[t].stripe)
  {
    hide Only, Payload, Completed, BusyOk, Orderly, StripeOf, ReqOk;
    TaskAt(g, s, t);
    SameComing(g, s, s', g.Owner(s.tasks[t].stripe));
    var stripe := s.tasks[t].stripe;
    var left := Only(g, Payload(Coming(s, g.Owner(stripe))), stripe);
    assert Only(g, s.submitted, stripe) == Gone(g, s, t) + left;
  }

  lemma {:induction false} MoveDrainer(g: Geo, s: State, s': State, t: nat, stripe: nat)
    requires g.Valid() && Inv(g, s) && Sized(g, s') && Live(s, t) && OwnStripeOnly(g, s, s', t)
    requires HasDrainer(s, stripe) && (stripe != s.tasks[t].stripe || Live(s', t))
    ensures HasDrainer(s', stripe)
  {
    hide Orderly, InTable, StripeOf;
    var u: nat :| Live(s, u) && s.tasks[u].stripe == stripe;
    assert Live(s', u) && s'.tasks[u].stripe == stripe;
  }

  lemma {:induction false} MoveTable(g: Geo, s: State, s': State, t: nat, v: nat)
    requires g.Valid() && Inv(g, s) && Sized(g, s') && Live(s, t) && v < g.workers
    requires OwnStripeOnly(g, s, s', t) && OwnStripeKept(g, s, s', t)
    ensures TableOk(g, s', v)
  {
    hide Orderly, Only, Payload, Completed, StripeOf, ReqOk, BusyOk, Gone, HasDrainer;
    TableAt(g, s, v);
    TaskAt(g, s, t);
    if s'.chans[v].Some? {
      forall x | x in s'.chans[v].value
        ensures g.Owner(x) == v && HasDrainer(s', x) && s'.chans[v].value[x].draining
        ensures forall i | 0 <= i < |s'.chans[v].value[x].pending| :: ReqOk(g, x, s'.chans[v].value[x].pending[i])
      {
        MoveEntry(g, s, s', t, v, x);
      }
    }
  }

  lemma {:induction false} MoveEntry(g: Geo, s: State, s': State, t: nat, v: nat, x: nat)
    requires g.Valid() && Inv(g, s) && Sized(g, s') && Live(s, t) && v < g.workers
    requires OwnStripeOnly(g, s, s', t) && OwnStripeKept(g, s, s', t)
    requires s'.chans[v].Some? && x in s'.chans[v].value
    ensures g.Owner(x) == v && HasDrainer(s', x) && s'.chans[v].value[x].draining
    ensures forall i | 0 <= i < |s'.chans[v].value[x].pending| :: ReqOk(g, x, s'.chans[v].value[x].pending[i])
  {
    if v == g.Owner(s.tasks[t].stripe) && x == s.tasks[t].stripe {
      MoveOwnEntry(g, s, s', t);
    } else {
      hide OwnStripeKept, OwnStripeOnly, Orderly, HasDrainer, ReqOk, TableOk;
      SameEntry(g, s, s', t, v, x);
      EntryOk(g, s, v, x);
      MoveDrainer(g, s, s', t, x);
    }
  }

  lemma {:induction false} MoveOwnEntry(g: Geo, s: State, s': State, t: nat)
    requires g.Valid() && Inv(g, s) && Sized(g, s') && Live(s, t)
    requires OwnStripeOnly(g, s, s', t) && OwnStripeKept(g, s, s', t)
    requires InTable(g, s', s.tasks[t].stripe)
    ensures var x := s.tasks[t].stripe;
            && HasDrainer(s', x) && s'.chans[g.Owner(x)].value[x].draining
            && forall i | 0 <= i < |s'.chans[g.Owner(x)].value[x].pending| ::
                 ReqOk(g, x, s'.chans[g.Owner(x)].value[x].pending[i])
  {
    hide Orderly, Only, Completed, StripeOf, BusyOk, Gone;
    var x := s.tasks[t].stripe;
    assert s'.tasks[t].stripe == x && Live(s', t);
    DrainerOf(s', t);
    assert Queued(g, s', x) == s'.chans[g.Owner(x)].value[x].pending;
  }

  lemma {:induction false} SameEntry(g: Geo, s: State, s': State, t: nat, v: nat, x: nat)
    requires g.Valid() && Sized(g, s) && Sized(g, s') && Live(s, t) && v < g.workers && OwnStripeOnly(g, s, s', t)
    requires !(v == g.Owner(s.tasks[t].stripe) && x == s.tasks[t].stripe)
    requires s'.chans[v].Some? && x in s'.chans[v].value
    ensures s.chans[v].Some? && x in s.chans[v].value && s'.chans[v].value[x] == s.chans[v].value[x]
  {
  }

  lemma {:induction false} EntryOk(g: Geo, s: State, v: nat, x: nat)
    requires g.Valid() && Inv(g, s) && v < g.workers && s.chans[v].Some? && x in s.chans[v].value
    ensures g.Owner(x) == v && HasDrainer(s, x) && s.chans[v].value[x].draining
    ensures forall i | 0 <= i < |s.chans[v].value[x].pending| :: ReqOk(g, x, s.chans[v].value[x].pending[i])
  {
    TableAt(g, s, v);
  }

  lemma {:induction false} DrainerOf(s: State, t: nat)
    requires Live(s, t)
    ensures HasDrainer(s, s.tasks[t].stripe)
  {
  }

  lemma {:induction false} MoveInv(g: Geo, s: State, s': State, t: nat)
    requires g.Valid() && Inv(g, s) && Sized(g, s') && Live(s, t)
    requires OwnStripeOnly(g, s, s', t) && OwnStripeKept(g, s, s', t)
    ensures Inv(g, s')
  {
    hide Only, Payload, Completed, StripeOf, ReqOk, BusyOk, Gone, TaskOk, TableOk, MsgsOk, ConservedBy, ConservedIdle;
    forall v | 0 <= v < g.workers
      ensures MsgsOk(g, Coming(s', v), s'.chans[v].Some?, v) && TableOk(g, s', v)
    {
      MoveTable(g, s, s', t, v);
      SameComing(g, s, s', v);
    }
    forall u: nat | Live(s', u)
      ensures TaskOk(g, s', s'.tasks[u]) && ConservedBy(g, s', s'.tasks[u]) && Live(s, u)
    {
      if u == t { MoveOwn(g, s, s', t); } else { MoveOther(g, s, s', t, u); }
    }
    forall stripe: nat | !InTable(g, s', stripe)
      ensures ConservedIdle(g, s', stripe)
    {
      MoveIdle(g, s, s', t, stripe);
    }
  }

  lemma {:induction false} MoveIdle(g: Geo, s: State, s': State, t: nat, stripe: nat)
    requires g.Valid() && Inv(g, s) && Sized(g, s') && Live(s, t)
    requires OwnStripeOnly(g, s, s', t) && OwnStripeKept(g, s, s', t)
    requires !InTable(g, s', stripe)
    ensures ConservedIdle(g, s', stripe)
  {
    hide Only, Payload, Completed, StripeOf, ReqOk, BusyOk, Gone, Orderly;
    if stripe == s.tasks[t].stripe {
      MoveOwn(g, s, s', t);
    } else {
      assert !InTable(g, s, stripe);
      IdleAt(g, s, stripe);
      OtherStripeLog(g, s, s', t, stripe);
      SameComing(g, s, s', g.Owner(stripe));
    }
  }

  lemma {:induction false} DequeueInv(g: Geo, s: State, t: nat)
    requires g.Valid() && Inv(g, s) && Enabled(g, s, Dequeue(t))
    ensures Inv(g, DequeueStep(g, s, t))
  {
    assert Live(s, t);
    DequeueEntry(g, s, t);
    if Queued(g, s, s.tasks[t].stripe) == [] {
      FinishKept(g, s, t);
    } else {
      BeginKept(g, s, t);
    }
    MoveInv(g, s, DequeueStep(g, s, t), t);
  }

  /** A live drainer finds its stripe in the table. */
  lemma {:induction false} DequeueEntry(g: Geo, s: State, t: nat)
    requires g.Valid() && Inv(g, s) && Enabled(g, s, Dequeue(t))
    ensures Live(s, t) && TaskOk(g, s, s.tasks[t]) && InTable(g, s, s.tasks[t].stripe)
    ensures var stripe := s.tasks[t].stripe;
            && s.chans[g.Owner(stripe)].value[stripe].draining
            && (forall i | 0 <= i < |Queued(g, s, stripe)| :: ReqOk(g, stripe, Queued(g, s, stripe)[i]))
  {
    assert Live(s, t);
    TaskAt(g, s, t);
    TableAt(g, s, g.Owner(s.tasks[t].stripe));
  }

  lemma {:induction false} FinishKept(g: Geo, s: State, t: nat)
    requires g.Valid() && Inv(g, s) && Enabled(g, s, Dequeue(t)) && Queued(g, s, s.tasks[t].stripe) == []
    ensures Live(s, t)
    ensures var s' := DequeueStep(g, s, t);
            Sized(g, s') && OwnStripeOnly(g, s, s', t) && OwnStripeKept(g, s, s', t)
  {
    DequeueEntry(g, s, t);
    hide Orderly, Only, Completed, StripeOf, ReqOk;
  }

  lemma {:induction false} BeginKept(g: Geo, s: State, t: nat)
    requires g.Valid() && Inv(g, s) && Enabled(g, s, Dequeue(t)) && Queued(g, s, s.tasks[t].stripe) != []
    ensures Live(s, t)
    ensures var s' := DequeueStep(g, s, t);
            Sized(g, s') && OwnStripeOnly(g, s, s', t) && OwnStripeKept(g, s, s', t)
  {
    hide Orderly, Only, Completed, Begin, BusyOk;
    DequeueEntry(g, s, t);
    var stripe := s.tasks[t].stripe;
    var r := Queued(g, s, stripe)[0];
    assert ReqOk(g, stripe, r);
    BeginOk(g, stripe, r);
    if Begin(g, stripe, r).Complete? {
      var c := Completion(r, s.dead, 0, None, Begin(g, stripe, r).status, Begin(g, stripe, r).data);
      CompletedPush(s.log, c);
      OnlyPush(g, Completed(s.log), r, stripe);
    }
  }

  lemma {:induction false} AdvanceInv(g: Geo, s: State, t: nat)
    requires g.Valid() && Inv(g, s) && Enabled(g, s, Advance(t))
    ensures Inv(g, AdvanceStep(g, s, t))
  {
    AdvanceKept(g, s, t);
    MoveInv(g, s, AdvanceStep(g, s, t), t);
  }

  lemma {:induction false} BusyEntry(g: Geo, s: State, t: nat)
    requires g.Valid() && Inv(g, s) && t < |s.tasks| && s.tasks[t].pc.Busy?
    ensures Live(s, t) && TaskOk(g, s, s.tasks[t]) && InTable(g, s, s.tasks[t].stripe)
    ensures var stripe, pc := s.tasks[t].stripe, s.tasks[t].pc;
            && BusyOk(g, stripe, pc.req, pc.phase, pc.ios)
            && s.chans[g.Owner(stripe)].value[stripe].draining
            && (forall i | 0 <= i < |Queued(g, s, stripe)| :: ReqOk(g, stripe, Queued(g, s, stripe)[i]))
  {
    assert Live(s, t);
    TaskAt(g, s, t);
    TableAt(g, s, g.Owner(s.tasks[t].stripe));
  }

  lemma {:induction false} AdvanceKept(g: Geo, s: State, t: nat)
    requires g.Valid() && Inv(g, s) && Enabled(g, s, Advance(t))
    ensures Live(s, t)
    ensures var s' := AdvanceStep(g, s, t);
            Sized(g, s') && OwnStripeOnly(g, s, s', t) && OwnStripeKept(g, s, s', t)
  {
    hide Orderly, Only, Completed, Resume, PhaseOk, ReqOk, RepairSettled, AllDone;
    BusyEntry(g, s, t);
    var stripe, pc := s.tasks[t].stripe, s.tasks[t].pc;
    ResumeOk(g, stripe, pc.req, pc.phase, pc.ios);
    RequestStripe(g, stripe, pc.req);
    var o := Resume(g, stripe, pc.req, pc.phase, pc.ios);
    if o.Complete? {
      CompletedPush(s.log, Completion(pc.req, pc.began, LostBy(pc), Spoilt(pc), o.status, o.data));
      OnlyPush(g, Completed(s.log), pc.req, stripe);
    }
  }

  lemma {:induction false} RequestStripe(g: Geo, stripe: nat, r: Req)
    requires g.Valid() && ReqOk(g, stripe, r)
    ensures StripeOf(g, r) == stripe
  {
  }

  lemma {:induction false} EffectInv(g: Geo, s: State, t: nat, i: nat, ok: bool, junk: Bytes)
    requires g.Valid() && Inv(g, s) && Enabled(g, s, Effect(t, i, ok, junk))
    ensures Inv(g, EffectStep(g, s, t, i, ok, junk))
  {
    EffectKept(g, s, t, i, ok, junk);
    MoveInv(g, s, EffectStep(g, s, t, i, ok, junk), t);
  }

  lemma {:induction false} EffectKept(g: Geo, s: State, t: nat, i: nat, ok: bool, junk: Bytes)
    requires g.Valid() && Inv(g, s) && Enabled(g, s, Effect(t, i, ok, junk))
    ensures Live(s, t)
    ensures var s' := EffectStep(g, s, t, i, ok, junk);
            Sized(g, s') && OwnStripeOnly(g, s, s', t) && OwnStripeKept(g, s, s', t)
  {
    hide Orderly, Only, Completed, BusyOk, ReqOk;
    BusyEntry(g, s, t);
    var pc := s.tasks[t].pc;
    var io := pc.ios[i];
    var data := if io.dir.In? && ok then s.disks[io.disk][io.lo..io.lo + io.len] else junk;
    DoneOk(g, s.tasks[t].stripe, pc.req, pc.phase, pc.ios, i, Done(ok, data));
  }

  /** Every step keeps the invariant, whatever the child disks do. */
  lemma {:induction false} StepInv(g: Geo, s: State, a: Action)
    requires g.Valid() && Inv(g, s) && Enabled(g, s, a)
    ensures Inv(g, Next(g, s, a))
  {
    match a
    case Submit(r) => SubmitInv(g, s, r);
    case Deliver(w) => DeliverInv(g, s, w);
    case Poll(w) =>
      if s.runq[w][0].InitChannel? { PollInitInv(g, s, w); } else { PollSubmittedInv(g, s, w); }
    case Dequeue(t) => DequeueInv(g, s, t);
    case Effect(t, i, ok, junk) => EffectInv(g, s, t, i, ok, junk);
    case Advance(t) => AdvanceInv(g, s, t);
    case Die(d) => QuietInv(g, s, s.(dead := Some(d)));
  }

  lemma {:induction false} RunInv(g: Geo, run: seq<State>, acts: seq<Action>, i: nat)
    requires g.Valid() && IsRun(g, run, acts) && i < |run|
    ensures Inv(g, run[i])
    decreases i
  {
    if i == 0 {
      InitialInv(g, run[0]);
    } else {
      RunInv(g, run, acts, i - 1);
      StepInv(g, run[i - 1], acts[i - 1]);
    }
  }
}
