/** The RAID5 engine as a state machine over many requests, workers and disks.
    A step is a message delivery, one uninterrupted stretch of driver code between two
    awaits, the effect of one child I/O, or the death of a disk. Lengths count bytes. */
module Raid5Machine {
  import opened XorAlgebra
  import opened Geometry
  import opened Strips
  import opened Parity
  import opened StripeQueues

  datatype Kind = Read | Write(data: Bytes) | Flush | Other

  /** A request handed to the array; `id` only tells requests apart. */
  datatype Req = Req(id: nat, kind: Kind, off: nat, len: nat)

  /** What SPDK checks before the array sees a request. */
  predicate ValidReq(g: Geo, r: Req)
    requires g.Valid()
  {
    r.off < g.Capacity() && r.off + r.len <= g.Capacity() && (r.kind.Write? ==> |r.kind.data| == r.len)
  }

  function StripeOf(g: Geo, r: Req): nat
    requires g.Valid()
  {
    g.StripeIdx(r.off)
  }

  function StartOf(g: Geo, r: Req): nat
    requires g.Valid()
  {
    g.StripeOff(r.off)
  }

  predicate InOneStripe(g: Geo, r: Req)
    requires g.Valid()
  {
    StartOf(g, r) + r.len <= g.StripeLen()
  }

  /** All bytes of the request are in one stripe. */
  predicate Undivided(g: Geo, r: Req)
    requires g.Valid()
  {
    forall a | r.off <= a < r.off + r.len :: g.StripeIdx(a) == g.StripeIdx(r.off)
  }

  /** The driver's test for requests across a stripe boundary is exact. */
  lemma {:induction false} InOneStripeIff(g: Geo, r: Req)
    requires g.Valid()
    ensures InOneStripe(g, r) <==> Undivided(g, r)
  {
    hide Geo.StripeIdx, Geo.StripeOff, Geo.StripeLen;
    StripeDecompose(g, r.off);
    forall a | r.off <= a < r.off + r.len
      ensures g.StripeIdx(a) == g.StripeIdx(r.off) <==> StartOf(g, r) + (a - r.off) < g.StripeLen()
    {
      SameStripe(g, r.off, a);
    }
    if r.len > 0 && Undivided(g, r) {
      var last := r.off + r.len - 1;
      assert g.StripeIdx(last) == g.StripeIdx(r.off);
    }
  }

  function Segs(g: Geo, r: Req): seq<Strip>
    requires g.Valid()
  {
    SplitStrips(g.strip, g.Parity(StripeOf(g, r)), StartOf(g, r), r.len)
  }

  datatype Status = Success | Failure

  /** A completed request. `data` is what a successful read delivered. The rest is history:
      `began` is the disk, if any, that was dead when the request was taken off its queue, `lost`
      counts its failed child reads, and `wrote`, if the request got to its write phase, its
      failed child writes. */
  datatype Completion = Completion(req: Req, began: Option<nat>, lost: nat, wrote: Option<nat>, status: Status,
                                   data: Bytes)

  datatype Dir = In | Out(data: Bytes)
  datatype Outcome = Pending | Done(ok: bool, data: Bytes)

  /** An I/O submitted to a child disk. */
  datatype ChildIo = ChildIo(disk: nat, lo: nat, len: nat, dir: Dir, out: Outcome)

  /** What a request in progress is awaiting. */
  datatype Phase =
    | ReadWait
    | ReadRepair(parts: seq<Bytes>, k: nat)
    | RmwRead
    | RmwRepair(olds: seq<Bytes>, k: nat)
    | WriteWait

  /** Where a task is; `began` and `lost` are history, `lost` that of earlier batches. */
  datatype Pc =
    | AtDequeue
    | Busy(req: Req, began: Option<nat>, lost: nat, phase: Phase, ios: seq<ChildIo>)
    | Finished

  /** A task that found its stripe idle and became its drainer. */
  datatype Task = Task(worker: nat, stripe: nat, pc: Pc)

  datatype Msg = InitChannel | Submitted(req: Req)

  datatype State = State(
    disks: seq<Bytes>,
    dead: Option<nat>,
    ring: seq<seq<Msg>>,
    runq: seq<seq<Msg>>,
    chans: seq<Option<Stripes<Req>>>,
    tasks: seq<Task>,
    submitted: seq<Req>,
    log: seq<Completion>,
    panicked: bool)

  // Child I/Os of each phase.

  function ReadIo(g: Geo, stripe: nat, s: Strip): ChildIo
    requires g.Valid()
  {
    ChildIo(s.disk, g.Base(stripe) + s.off, s.len, In, Pending)
  }

  function SegReads(g: Geo, stripe: nat, segs: seq<Strip>): (r: seq<ChildIo>)
    requires g.Valid()
    ensures |r| == |segs| && forall k | 0 <= k < |segs| :: r[k] == ReadIo(g, stripe, segs[k])
  {
    if |segs| == 0 then [] else SegReads(g, stripe, segs[..|segs| - 1]) + [ReadIo(g, stripe, segs[|segs| - 1])]
  }

  function ParityRead(g: Geo, stripe: nat): ChildIo
    requires g.Valid()
  {
    ChildIo(g.Parity(stripe), g.Base(stripe), g.strip, In, Pending)
  }

  /** The k-th disk other than `skip`. */
  function OtherDisk(skip: nat, k: nat): nat {
    if k < skip then k else k + 1
  }

  /** Reads of one range from the first m disks other than `skip`. */
  function RepairReads(skip: nat, lo: nat, len: nat, m: nat): (r: seq<ChildIo>)
    ensures |r| == m && forall k | 0 <= k < m :: r[k] == ChildIo(OtherDisk(skip, k), lo, len, In, Pending)
  {
    if m == 0 then []
    else RepairReads(skip, lo, len, m - 1) + [ChildIo(OtherDisk(skip, m - 1), lo, len, In, Pending)]
  }

  function SegWrites(g: Geo, stripe: nat, segs: seq<Strip>, d: Bytes): (r: seq<ChildIo>)
    requires g.Valid()
    requires forall k | 0 <= k < |segs| :: segs[k].pos + segs[k].len <= |d|
    ensures |r| == |segs|
    ensures forall k | 0 <= k < |segs| :: r[k] == ReadIo(g, stripe, segs[k]).(dir := Out(Piece(segs[k], d)))
  {
    if |segs| == 0 then []
    else
      var s := segs[|segs| - 1];
      SegWrites(g, stripe, segs[..|segs| - 1], d) + [ReadIo(g, stripe, s).(dir := Out(Piece(s, d)))]
  }

  function ParityWrite(g: Geo, stripe: nat, parity: Bytes): ChildIo
    requires g.Valid()
  {
    ParityRead(g, stripe).(dir := Out(parity))
  }

  /** Writes to the first m disks of a whole stripe: parity on its disk, segments in order
      on the others. */
  function FullWrites(g: Geo, stripe: nat, segs: seq<Strip>, d: Bytes, parity: Bytes, m: nat): (r: seq<ChildIo>)
    requires g.Valid() && m <= g.ndisks && |segs| == g.ndisks - 1
    requires forall k | 0 <= k < |segs| :: segs[k].pos + segs[k].len <= |d|
    ensures |r| == m
    ensures forall k | 0 <= k < m ::
              r[k] == if k == g.Parity(stripe) then ParityWrite(g, stripe, parity)
                      else SegWrites(g, stripe, segs, d)[DataStrip(k, g.Parity(stripe))].(disk := k)
  {
    if m == 0 then []
    else
      FullWrites(g, stripe, segs, d, parity, m - 1)
      + [if m - 1 == g.Parity(stripe) then ParityWrite(g, stripe, parity)
         else SegWrites(g, stripe, segs, d)[DataStrip(m - 1, g.Parity(stripe))].(disk := m - 1)]
  }

  function Datas(ios: seq<ChildIo>): (r: seq<Bytes>)
    ensures |r| == |ios|
    ensures forall k | 0 <= k < |ios| :: r[k] == if ios[k].out.Done? then ios[k].out.data else []
  {
    if |ios| == 0 then []
    else
      var io := ios[|ios| - 1];
      Datas(ios[..|ios| - 1]) + [if io.out.Done? then io.out.data else []]
  }

  predicate Failed(io: ChildIo) { io.out.Done? && !io.out.ok }

  /** Positions of the failed I/Os, in await order. */
  function Failures(ios: seq<ChildIo>): (r: seq<nat>)
    ensures forall k | 0 <= k < |r| :: r[k] < |ios| && Failed(ios[r[k]])
    ensures forall i, j | 0 <= i < j < |r| :: r[i] < r[j]
    ensures forall i | 0 <= i < |ios| && Failed(ios[i]) :: i in r
  {
    if |ios| == 0 then []
    else
      Failures(ios[..|ios| - 1]) + (if Failed(ios[|ios| - 1]) then [|ios| - 1] else [])
  }

  predicate AllDone(ios: seq<ChildIo>) {
    forall i | 0 <= i < |ios| :: ios[i].out.Done?
  }

  /** Reconstruction gives up at the first failed read, without awaiting later ones. */
  predicate RepairSettled(ios: seq<ChildIo>) {
    AllDone(ios) || exists i | 0 <= i < |ios| :: Failed(ios[i]) && AllDone(ios[..i])
  }

  // The stretches of driver code between awaits.

  /** Where a request stands after a stretch of code. */
  datatype Outlook = Await(phase: Phase, ios: seq<ChildIo>) | Complete(status: Status, data: Bytes) | Panic

  /** From dequeue to the first await. */
  function Begin(g: Geo, stripe: nat, r: Req): Outlook
    requires g.Valid()
  {
    if !InOneStripe(g, r) then Complete(Failure, [])
    else
      match r.kind
      case Read => Await(ReadWait, SegReads(g, stripe, Segs(g, r)))
      case Write(d) =>
        if StartOf(g, r) == 0 && r.len == g.StripeLen() then BeginFull(g, stripe, r, d)
        else Await(RmwRead, SegReads(g, stripe, Segs(g, r)) + [ParityRead(g, stripe)])
      case Flush => Complete(Success, [])
      case Other => Complete(Failure, [])
  }

  predicate PiecesFit(segs: seq<Strip>, d: Bytes) {
    forall k | 0 <= k < |segs| :: segs[k].pos + segs[k].len <= |d|
  }

  /** A whole-stripe write needs no read: its parity is that of its own data. The driver's
      size and count assertions are the conditions under which it does not panic. */
  function BeginFull(g: Geo, stripe: nat, r: Req, d: Bytes): Outlook
    requires g.Valid()
  {
    var segs := Segs(g, r);
    if |segs| == g.ndisks - 1 && PiecesFit(segs, d) && Uniform(Pieces(segs, d), g.strip) then
      Await(WriteWait, FullWrites(g, stripe, segs, d, XorAll(Pieces(segs, d), g.strip), g.ndisks))
    else Panic
  }

  /** Phases 2 and 3 of a partial write: new parity, then all writes. */
  function BeginWrites(g: Geo, stripe: nat, r: Req, olds: seq<Bytes>): Outlook
    requires g.Valid()
  {
    var segs := Segs(g, r);
    if r.kind.Write? && |olds| == |segs| + 1 && |olds[|segs|]| == g.strip
       && Fitting(segs, g.strip, olds[..|segs|], r.kind.data) then
      var parity := Rmw(olds[|segs|], segs, olds[..|segs|], r.kind.data, |segs|);
      Await(WriteWait, SegWrites(g, stripe, segs, r.kind.data) + [ParityWrite(g, stripe, parity)])
    else Panic
  }

  /** The first segment on a disk, if any. */
  function Position(segs: seq<Strip>, disk: nat): Option<nat> {
    if |segs| == 0 then None
    else if Position(segs[..|segs| - 1], disk).Some? then Position(segs[..|segs| - 1], disk)
    else if segs[|segs| - 1].disk == disk then Some(|segs| - 1)
    else None
  }

  /** From one await to the next. */
  function Resume(g: Geo, stripe: nat, r: Req, phase: Phase, ios: seq<ChildIo>): Outlook
    requires g.Valid()
  {
    var segs, failed := Segs(g, r), Failures(ios);
    match phase
    case ReadWait =>
      if |failed| == 0 then Complete(Success, Concat(Datas(ios)))
      else if |failed| == 1 && failed[0] < |segs| then
        var s := segs[failed[0]];
        Await(ReadRepair(Datas(ios), failed[0]), RepairReads(s.disk, g.Base(stripe) + s.off, s.len, g.ndisks - 1))
      else Complete(Failure, [])
    case ReadRepair(parts, k) =>
      if |failed| > 0 then Complete(Failure, [])
      else if k < |segs| && k < |parts| && Uniform(Datas(ios), segs[k].len) then
        Complete(Success, Concat(parts[k := XorAll(Datas(ios), segs[k].len)]))
      else Panic
    case RmwRead =>
      if |failed| >= 2 then Complete(Failure, [])
      else if |failed| == 0 then BeginWrites(g, stripe, r, Datas(ios))
      else
        var disk := ios[failed[0]].disk;
        if disk == g.Parity(stripe) then
          Await(RmwRepair(Datas(ios), |segs|), RepairReads(disk, g.Base(stripe), g.strip, g.ndisks - 1))
        else if Position(segs, disk).Some? && Position(segs, disk).value < |segs| then
          var k := Position(segs, disk).value;
          Await(RmwRepair(Datas(ios), k), RepairReads(disk, g.Base(stripe) + segs[k].off, segs[k].len, g.ndisks - 1))
        else Panic
    case RmwRepair(olds, k) =>
      if |failed| > 0 then Complete(Failure, [])
      else
        var len := if k < |segs| then segs[k].len else g.strip;
        if k < |olds| && Uniform(Datas(ios), len) then
          BeginWrites(g, stripe, r, olds[k := XorAll(Datas(ios), len)])
        else Panic
    case WriteWait => Complete(if |failed| == 0 then Success else Failure, [])
  }

  // Steps.

  datatype Action =
    | Submit(req: Req)
    | Deliver(w: nat)
    | Poll(w: nat)
    | Dequeue(t: nat)
    | Effect(t: nat, i: nat, ok: bool, junk: Bytes)
    | Advance(t: nat)
    | Die(d: nat)

  /** A child disk refuses I/O beyond its end. */
  predicate InRange(s: State, io: ChildIo) {
    && io.disk < |s.disks| && io.lo + io.len <= |s.disks[io.disk]|
    && (io.dir.Out? ==> |io.dir.data| == io.len)
  }

  predicate Enabled(g: Geo, s: State, a: Action)
    requires g.Valid()
  {
    !s.panicked &&
    match a
    case Submit(r) => ValidReq(g, r) && r.id == |s.submitted| && |s.ring| == g.workers
    case Deliver(w) => w < |s.ring| && w < |s.runq| && s.ring[w] != []
    case Poll(w) => w < |s.runq| && w < |s.chans| && s.runq[w] != []
    case Dequeue(t) => t < |s.tasks| && s.tasks[t].pc.AtDequeue?
    case Effect(t, i, ok, junk) =>
      && t < |s.tasks| && s.tasks[t].pc.Busy? && i < |s.tasks[t].pc.ios|
      && s.tasks[t].pc.ios[i].out.Pending? && |junk| == s.tasks[t].pc.ios[i].len
      && (ok ==> InRange(s, s.tasks[t].pc.ios[i]))
    case Advance(t) =>
      && t < |s.tasks| && s.tasks[t].pc.Busy?
      && (if s.tasks[t].pc.phase.ReadRepair? || s.tasks[t].pc.phase.RmwRepair?
          then RepairSettled(s.tasks[t].pc.ios) else AllDone(s.tasks[t].pc.ios))
    case Die(d) => s.dead.None? && d < |s.disks|
  }

  function SubmitStep(g: Geo, s: State, r: Req): State
    requires g.Valid() && Enabled(g, s, Submit(r))
  {
    var w := g.Owner(StripeOf(g, r));
    s.(ring := s.ring[w := s.ring[w] + [Submitted(r)]], submitted := s.submitted + [r])
  }

  function DeliverStep(g: Geo, s: State, w: nat): State
    requires g.Valid() && Enabled(g, s, Deliver(w))
  {
    s.(ring := s.ring[w := s.ring[w][1..]], runq := s.runq[w := s.runq[w] + [s.ring[w][0]]])
  }

  /** First poll of a spawned task: set up the channel, or enqueue and perhaps become drainer. */
  function PollStep(g: Geo, s: State, w: nat): State
    requires g.Valid() && Enabled(g, s, Poll(w))
  {
    var rest := s.(runq := s.runq[w := s.runq[w][1..]]);
    match s.runq[w][0]
    case InitChannel => rest.(chans := s.chans[w := Some(map[])])
    case Submitted(r) =>
      if s.chans[w].None? then rest.(panicked := true)
      else
        var (m, draining) := Enqueued(s.chans[w].value, StripeOf(g, r), r);
        var queued := rest.(chans := s.chans[w := Some(m)]);
        if draining then queued else queued.(tasks := s.tasks + [Task(w, StripeOf(g, r), AtDequeue)])
  }

  function WithPc(s: State, t: nat, pc: Pc): State
    requires t < |s.tasks|
  {
    s.(tasks := s.tasks[t := s.tasks[t].(pc := pc)])
  }

  /** The child reads lost by the end of a batch, `lost` of them before it. */
  function LostAfter(lost: nat, phase: Phase, ios: seq<ChildIo>): nat {
    if phase.WriteWait? then lost else lost + |Failures(ios)|
  }

  /** The child reads that the request in hand has lost by the end of its batch. */
  function LostBy(pc: Pc): nat {
    if pc.Busy? then LostAfter(pc.lost, pc.phase, pc.ios) else 0
  }

  /** The failed child writes of a request in its write phase. */
  function Spoilt(pc: Pc): Option<nat> {
    if pc.Busy? && pc.phase.WriteWait? then Some(|Failures(pc.ios)|) else None
  }

  /** The state after task t came to outlook `o` on request r. */
  function Settle(s: State, t: nat, r: Req, began: Option<nat>, o: Outlook): State
    requires t < |s.tasks|
  {
    var pc := s.tasks[t].pc;
    match o
    case Await(phase, ios) => WithPc(s, t, Busy(r, began, LostBy(pc), phase, ios))
    case Complete(status, data) =>
      WithPc(s, t, AtDequeue).(log := s.log + [Completion(r, began, LostBy(pc), Spoilt(pc), status, data)])
    case Panic => s.(panicked := true)
  }

  function DequeueStep(g: Geo, s: State, t: nat): State
    requires g.Valid() && Enabled(g, s, Dequeue(t))
  {
    var w, stripe := s.tasks[t].worker, s.tasks[t].stripe;
    if w >= |s.chans| || s.chans[w].None? || stripe !in s.chans[w].value then s.(panicked := true)
    else
      var (m, next) := Dequeued(s.chans[w].value, stripe);
      var taken := s.(chans := s.chans[w := Some(m)]);
      match next
      case None => WithPc(taken, t, Finished)
      case Some(r) => Settle(taken, t, r, s.dead, Begin(g, stripe, r))
  }

  /** One child I/O happens. A failed write may leave anything in its range. */
  function EffectStep(g: Geo, s: State, t: nat, i: nat, ok: bool, junk: Bytes): State
    requires g.Valid() && Enabled(g, s, Effect(t, i, ok, junk))
  {
    var pc := s.tasks[t].pc;
    var io := pc.ios[i];
    var data := if io.dir.In? && ok then s.disks[io.disk][io.lo..io.lo + io.len] else junk;
    var done := WithPc(s, t, pc.(ios := pc.ios[i := io.(out := Done(ok, data))]));
    if io.dir.Out? && InRange(s, io) then
      done.(disks := s.disks[io.disk := Splice(s.disks[io.disk], io.lo, if ok then io.dir.data else junk)])
    else done
  }

  function AdvanceStep(g: Geo, s: State, t: nat): State
    requires g.Valid() && Enabled(g, s, Advance(t))
  {
    var pc := s.tasks[t].pc;
    Settle(s, t, pc.req, pc.began, Resume(g, s.tasks[t].stripe, pc.req, pc.phase, pc.ios))
  }

  function Next(g: Geo, s: State, a: Action): State
    requires g.Valid() && Enabled(g, s, a)
  {
    match a
    case Submit(r) => SubmitStep(g, s, r)
    case Deliver(w) => DeliverStep(g, s, w)
    case Poll(w) => PollStep(g, s, w)
    case Dequeue(t) => DequeueStep(g, s, t)
    case Effect(t, i, ok, junk) => EffectStep(g, s, t, i, ok, junk)
    case Advance(t) => AdvanceStep(g, s, t)
    case Die(d) => s.(dead := Some(d))
  }

  /** Start of life: channels being set up, nothing submitted, disks of the right size. */
  ghost predicate Initial(g: Geo, s: State)
    requires g.Valid()
  {
    && |s.disks| == g.ndisks && (forall d | 0 <= d < g.ndisks :: |s.disks[d]| == g.child)
    && s.dead.None? && !s.panicked
    && |s.ring| == |s.runq| == |s.chans| == g.workers
    && (forall w | 0 <= w < g.workers :: s.ring[w] == [InitChannel] && s.runq[w] == [] && s.chans[w].None?)
    && s.tasks == [] && s.submitted == [] && s.log == []
  }

  /** A run: states joined by enabled steps. */
  ghost predicate IsRun(g: Geo, run: seq<State>, acts: seq<Action>)
    requires g.Valid()
  {
    && |run| == |acts| + 1 && Initial(g, run[0])
    && forall i | 0 <= i < |acts| :: Enabled(g, run[i], acts[i]) && run[i + 1] == Next(g, run[i], acts[i])
  }
}
