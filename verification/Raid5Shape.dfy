/** What every request in progress looks like, whatever its child I/Os report: plans stay
    inside the stripe, and none of the driver's assertions can fire. */
module Raid5Shape {
  import opened XorAlgebra
  import opened Geometry
  import opened Strips
  import opened Parity
  import opened StripeQueues
  import opened Raid5Machine

  ghost predicate SamePlan(ios: seq<ChildIo>, plan: seq<ChildIo>) {
    |ios| == |plan| && forall i | 0 <= i < |ios| :: ios[i].(out := Pending) == plan[i]
  }

  /** A child I/O stays in the rows of its stripe; only the last phase writes. */
  ghost predicate IoOk(g: Geo, stripe: nat, io: ChildIo, writing: bool)
    requires g.Valid()
  {
    && io.disk < g.ndisks && g.Base(stripe) <= io.lo && io.lo + io.len <= g.Base(stripe) + g.strip
    && (io.dir.Out? <==> writing)
    && (io.dir.Out? ==> |io.dir.data| == io.len)
    && (io.out.Done? ==> |io.out.data| == io.len)
  }

  ghost predicate DistinctDisks(ios: seq<ChildIo>) {
    forall i, j | 0 <= i < j < |ios| :: ios[i].disk != ios[j].disk
  }

  ghost predicate ReqOk(g: Geo, stripe: nat, r: Req)
    requires g.Valid()
  {
    ValidReq(g, r) && StripeOf(g, r) == stripe && stripe < g.Stripes()
  }

  function SegLens(segs: seq<Strip>): (r: seq<nat>)
    ensures |r| == |segs| && forall k | 0 <= k < |segs| :: r[k] == segs[k].len
  {
    if |segs| == 0 then [] else SegLens(segs[..|segs| - 1]) + [segs[|segs| - 1].len]
  }

  ghost predicate HasLens(parts: seq<Bytes>, lens: seq<nat>) {
    |parts| == |lens| && forall i | 0 <= i < |parts| :: |parts[i]| == lens[i]
  }

  function RmwReads(g: Geo, r: Req): seq<ChildIo>
    requires g.Valid()
  {
    SegReads(g, StripeOf(g, r), Segs(g, r)) + [ParityRead(g, StripeOf(g, r))]
  }

  function SegRepair(g: Geo, r: Req, k: nat): seq<ChildIo>
    requires g.Valid() && k < |Segs(g, r)|
  {
    var s := Segs(g, r)[k];
    RepairReads(s.disk, g.Base(StripeOf(g, r)) + s.off, s.len, g.ndisks - 1)
  }

  function ParityRepair(g: Geo, r: Req): seq<ChildIo>
    requires g.Valid()
  {
    RepairReads(g.Parity(StripeOf(g, r)), g.Base(StripeOf(g, r)), g.strip, g.ndisks - 1)
  }

  ghost predicate PhaseOk(g: Geo, r: Req, phase: Phase, ios: seq<ChildIo>)
    requires g.Valid()
  {
    var lens := SegLens(Segs(g, r));
    match phase
    case ReadWait => r.kind.Read? && SamePlan(ios, SegReads(g, StripeOf(g, r), Segs(g, r)))
    case ReadRepair(parts, k) => r.kind.Read? && k < |lens| && HasLens(parts, lens) && SamePlan(ios, SegRepair(g, r, k))
    case RmwRead => r.kind.Write? && SamePlan(ios, RmwReads(g, r))
    case RmwRepair(olds, k) =>
      && r.kind.Write? && k <= |lens| && HasLens(olds, lens + [g.strip])
      && SamePlan(ios, if k < |lens| then SegRepair(g, r, k) else ParityRepair(g, r))
    case WriteWait => r.kind.Write? && DistinctDisks(ios)
  }

  ghost predicate BusyOk(g: Geo, stripe: nat, r: Req, phase: Phase, ios: seq<ChildIo>)
    requires g.Valid()
  {
    && ReqOk(g, stripe, r) && InOneStripe(g, r)
    && (forall i | 0 <= i < |ios| :: IoOk(g, stripe, ios[i], phase.WriteWait?))
    && PhaseOk(g, r, phase, ios)
  }

  ghost predicate SegsOk(g: Geo, segs: seq<Strip>, parity: nat, len: nat) {
    && OnDistinctDataDisks(g, segs, parity)
    && forall k | 0 <= k < |segs| :: segs[k].off + segs[k].len <= g.strip && segs[k].pos + segs[k].len <= len
  }

  /** The segments of a request in one stripe, in the form the parity theorems use. */
  lemma {:induction false} PlannedReq(g: Geo, r: Req)
    requires g.Valid() && InOneStripe(g, r)
    ensures Planned(Segs(g, r), g.strip, g.ndisks, g.Parity(StripeOf(g, r)), StartOf(g, r), r.len,
                    StartOf(g, r) / g.strip)
    ensures SegsOk(g, Segs(g, r), g.Parity(StripeOf(g, r)), r.len)
  {
    var p, start := g.Parity(StripeOf(g, r)), StartOf(g, r);
    PlannedSplit(g, p, start, r.len);
  }

  /** The same, with the numbers involved given names. */
  lemma {:induction false} PlanOf(g: Geo, r: Req) returns (p: nat, start: nat, j0: nat)
    requires g.Valid() && InOneStripe(g, r)
    ensures p == g.Parity(StripeOf(g, r)) && start == StartOf(g, r)
    ensures Planned(Segs(g, r), g.strip, g.ndisks, p, start, r.len, j0) && SegsOk(g, Segs(g, r), p, r.len)
  {
    p, start, j0 := g.Parity(StripeOf(g, r)), StartOf(g, r), StartOf(g, r) / g.strip;
    hide Segs, StripeOf, StartOf, Planned, SegsOk;
    PlannedReq(g, r);
  }

  lemma {:induction false} PlannedSplit(g: Geo, p: nat, start: nat, len: nat)
    requires g.Valid() && p < g.ndisks && start < g.StripeLen() && start + len <= g.StripeLen()
    ensures var segs := SplitStrips(g.strip, p, start, len);
            Planned(segs, g.strip, g.ndisks, p, start, len, start / g.strip) && SegsOk(g, segs, p, len)
  {
    hide SplitStrips, Covers, Tiles, OnDistinctDataDisks, Planned, SegsOk;
    var segs, j0 := SplitStrips(g.strip, p, start, len), start / g.strip;
    assert j0 < g.ndisks - 1 by { DivBound(start, g.ndisks - 1, g.strip); }
    SplitBounds(g, p, start, len);
    TiledIsPlanned(g, segs, p, start, len, j0);
  }

  lemma {:induction false} TiledIsPlanned(g: Geo, segs: seq<Strip>, p: nat, start: nat, len: nat, j0: nat)
    requires g.Valid() && p < g.ndisks && start + len <= g.StripeLen() && j0 < g.ndisks - 1
    requires Tiles(segs, g.strip, p, start, start + len, start, j0) && OnDistinctDataDisks(g, segs, p)
    ensures Planned(segs, g.strip, g.ndisks, p, start, len, j0) && SegsOk(g, segs, p, len)
  {
  }

  /** Plans of reads are well-formed. */
  lemma {:induction false} ReadPlansOk(g: Geo, r: Req)
    requires g.Valid() && InOneStripe(g, r)
    ensures forall i | 0 <= i < |RmwReads(g, r)| :: IoOk(g, StripeOf(g, r), RmwReads(g, r)[i], false)
    ensures var plan := SegReads(g, StripeOf(g, r), Segs(g, r));
            forall i | 0 <= i < |plan| :: IoOk(g, StripeOf(g, r), plan[i], false)
    ensures DistinctDisks(RmwReads(g, r))
  {
    hide Segs, SegReads, Planned;
    PlannedReq(g, r);
  }

  lemma {:induction false} RepairPlanOk(g: Geo, stripe: nat, skip: nat, off: nat, len: nat)
    requires g.Valid() && skip < g.ndisks && off + len <= g.strip
    ensures var plan := RepairReads(skip, g.Base(stripe) + off, len, g.ndisks - 1);
            forall i | 0 <= i < |plan| :: IoOk(g, stripe, plan[i], false)
  {
  }

  lemma {:induction false} SegRepairOk(g: Geo, r: Req, k: nat)
    requires g.Valid() && InOneStripe(g, r) && k < |Segs(g, r)|
    ensures forall i | 0 <= i < |SegRepair(g, r, k)| :: IoOk(g, StripeOf(g, r), SegRepair(g, r, k)[i], false)
  {
    hide Segs, Planned, IoOk, RepairReads;
    PlannedReq(g, r);
    var s := Segs(g, r)[k];
    assert s.disk < g.ndisks && s.off + s.len <= g.strip;
    RepairPlanOk(g, StripeOf(g, r), s.disk, s.off, s.len);
    assert SegRepair(g, r, k) == RepairReads(s.disk, g.Base(StripeOf(g, r)) + s.off, s.len, g.ndisks - 1);
  }

  lemma {:induction false} ParityRepairOk(g: Geo, r: Req)
    requires g.Valid()
    ensures |ParityRepair(g, r)| == g.ndisks - 1
    ensures forall i | 0 <= i < |ParityRepair(g, r)| :: IoOk(g, StripeOf(g, r), ParityRepair(g, r)[i], false)
    ensures SamePlan(ParityRepair(g, r), ParityRepair(g, r))
  {
  }

  lemma {:induction false} SegWritesOk(g: Geo, r: Req, d: Bytes, parity: Bytes)
    requires g.Valid() && InOneStripe(g, r) && |d| == r.len && |parity| == g.strip
    requires PiecesFit(Segs(g, r), d)
    ensures var ios := SegWrites(g, StripeOf(g, r), Segs(g, r), d) + [ParityWrite(g, StripeOf(g, r), parity)];
            DistinctDisks(ios) && forall i | 0 <= i < |ios| :: IoOk(g, StripeOf(g, r), ios[i], true)
  {
    hide Segs, SegWrites, Planned;
    PlannedReq(g, r);
  }

  /** A whole stripe, as planned: one whole strip per data disk. */
  lemma {:induction false} FullPlan(g: Geo, r: Req, d: Bytes)
    requires g.Valid() && StartOf(g, r) == 0 && r.len == g.StripeLen() == |d|
    ensures var segs := Segs(g, r);
            && |segs| == g.ndisks - 1 && PiecesFit(segs, d) && Uniform(Pieces(segs, d), g.strip)
            && forall k | 0 <= k < |segs| ::
                 segs[k].disk == DataDisk(k, g.Parity(StripeOf(g, r))) && segs[k].off == 0 && segs[k].len == g.strip
  {
    hide Segs, Tiles, Pieces, Chunks;
    PlannedReq(g, r);
    WholeStripe(Segs(g, r), g.strip, g.ndisks, g.Parity(StripeOf(g, r)), d);
  }

  lemma {:induction false} FullWritesOk(g: Geo, r: Req, d: Bytes, parity: Bytes)
    requires g.Valid() && StartOf(g, r) == 0 && r.len == g.StripeLen() == |d| && |parity| == g.strip
    requires |Segs(g, r)| == g.ndisks - 1 && PiecesFit(Segs(g, r), d)
    ensures var ios := FullWrites(g, StripeOf(g, r), Segs(g, r), d, parity, g.ndisks);
            && DistinctDisks(ios) && (forall i | 0 <= i < |ios| :: IoOk(g, StripeOf(g, r), ios[i], true))
            && forall i | 0 <= i < |ios| :: ios[i].disk == i
  {
    hide Segs, FullWrites, SegWrites;
    FullPlan(g, r, d);
  }

  lemma {:induction false} BeginFullOk(g: Geo, stripe: nat, r: Req)
    requires g.Valid() && ReqOk(g, stripe, r) && r.kind.Write? && StartOf(g, r) == 0 && r.len == g.StripeLen()
    ensures var o := BeginFull(g, stripe, r, r.kind.data);
            o.Await? && BusyOk(g, stripe, r, o.phase, o.ios) && o.phase.WriteWait?
  {
    hide Segs, IoOk, FullWrites, Pieces, XorAll, SegLens;
    FullPlan(g, r, r.kind.data);
    FullWritesOk(g, r, r.kind.data, XorAll(Pieces(Segs(g, r), r.kind.data), g.strip));
  }

  lemma {:induction false} FreshReads(g: Geo, r: Req)
    requires g.Valid()
    ensures SamePlan(SegReads(g, StripeOf(g, r), Segs(g, r)), SegReads(g, StripeOf(g, r), Segs(g, r)))
    ensures SamePlan(RmwReads(g, r), RmwReads(g, r))
  {
  }

  /** Starting a request never panics and gives a well-formed plan. */
  lemma {:induction false} BeginOk(g: Geo, stripe: nat, r: Req)
    requires g.Valid() && ReqOk(g, stripe, r)
    ensures !Begin(g, stripe, r).Panic?
    ensures Begin(g, stripe, r).Await? ==> BusyOk(g, stripe, r, Begin(g, stripe, r).phase, Begin(g, stripe, r).ios)
  {
    hide BeginFull, BusyOk, ReqOk, SegReads, Segs, InOneStripe;
    if InOneStripe(g, r) {
      if r.kind.Write? && StartOf(g, r) == 0 && r.len == g.StripeLen() {
        BeginFullOk(g, stripe, r);
      } else {
        BeginReadsOk(g, stripe, r);
      }
    }
  }

  lemma {:induction false} BeginReadsOk(g: Geo, stripe: nat, r: Req)
    requires g.Valid() && ReqOk(g, stripe, r) && InOneStripe(g, r)
    ensures r.kind.Read? ==> BusyOk(g, stripe, r, ReadWait, SegReads(g, stripe, Segs(g, r)))
    ensures r.kind.Write? ==> BusyOk(g, stripe, r, RmwRead, SegReads(g, stripe, Segs(g, r)) + [ParityRead(g, stripe)])
  {
    hide Segs, SegReads, IoOk, SegLens, SamePlan, ParityRead;
    ReadPlansOk(g, r);
    FreshReads(g, r);
  }

  lemma {:induction false} BeginWritesOk(g: Geo, stripe: nat, r: Req, olds: seq<Bytes>)
    requires g.Valid() && ReqOk(g, stripe, r) && InOneStripe(g, r) && r.kind.Write?
    requires HasLens(olds, SegLens(Segs(g, r)) + [g.strip])
    ensures BeginWrites(g, stripe, r, olds).Await?
    ensures BeginWrites(g, stripe, r, olds).phase.WriteWait?
    ensures BusyOk(g, stripe, r, WriteWait, BeginWrites(g, stripe, r, olds).ios)
  {
    hide Segs, SegWrites, IoOk, Rmw, Planned;
    var segs := Segs(g, r);
    PlannedReq(g, r);
    assert Fitting(segs, g.strip, olds[..|segs|], r.kind.data);
    SegWritesOk(g, r, r.kind.data, Rmw(olds[|segs|], segs, olds[..|segs|], r.kind.data, |segs|));
  }

  lemma {:induction false} PositionOf(segs: seq<Strip>, k: nat)
    requires k < |segs| && forall i, j | 0 <= i < j < |segs| :: segs[i].disk != segs[j].disk
    ensures Position(segs, segs[k].disk) == Some(k)
    decreases |segs|
  {
    var n := |segs| - 1;
    if k < n {
      PositionOf(segs[..n], k);
    } else {
      PositionNone(segs[..n], segs[k].disk);
    }
  }

  lemma {:induction false} PositionNone(segs: seq<Strip>, disk: nat)
    requires forall i | 0 <= i < |segs| :: segs[i].disk != disk
    ensures Position(segs, disk).None?
    decreases |segs|
  {
    if |segs| > 0 {
      PositionNone(segs[..|segs| - 1], disk);
    }
  }

  /** All reads done: their buffers have the planned lengths. */
  lemma {:induction false} DatasUniform(g: Geo, stripe: nat, ios: seq<ChildIo>, len: nat)
    requires g.Valid() && AllDone(ios)
    requires forall i | 0 <= i < |ios| :: IoOk(g, stripe, ios[i], false) && ios[i].len == len
    ensures Uniform(Datas(ios), len)
  {
  }

  lemma {:induction false} SettledWithoutFailure(ios: seq<ChildIo>)
    requires RepairSettled(ios) && |Failures(ios)| == 0
    ensures AllDone(ios)
  {
  }

  /** Going on with a request never panics and keeps its plan well-formed. */
  lemma {:induction false} ResumeOk(g: Geo, stripe: nat, r: Req, phase: Phase, ios: seq<ChildIo>)
    requires g.Valid() && BusyOk(g, stripe, r, phase, ios)
    requires if phase.ReadRepair? || phase.RmwRepair? then RepairSettled(ios) else AllDone(ios)
    ensures var o := Resume(g, stripe, r, phase, ios);
            !o.Panic? && (o.Await? ==> BusyOk(g, stripe, r, o.phase, o.ios))
  {
    match phase
    case ReadWait => ReadWaitOk(g, stripe, r, ios);
    case ReadRepair(parts, k) => ReadRepairOk(g, stripe, r, parts, k, ios);
    case RmwRead => RmwReadOk(g, stripe, r, ios);
    case RmwRepair(olds, k) => RmwRepairOk(g, stripe, r, olds, k, ios);
    case WriteWait =>
  }

  lemma {:induction false} ReadWaitOk(g: Geo, stripe: nat, r: Req, ios: seq<ChildIo>)
    requires g.Valid() && BusyOk(g, stripe, r, ReadWait, ios) && AllDone(ios)
    ensures var o := Resume(g, stripe, r, ReadWait, ios);
            !o.Panic? && (o.Await? ==> BusyOk(g, stripe, r, o.phase, o.ios))
  {
    hide Segs, SegReads, RepairReads, Concat;
    var failed := Failures(ios);
    if |failed| == 1 {
      assert failed[0] < |Segs(g, r)|;
      SegRepairOk(g, r, failed[0]);
      assert HasLens(Datas(ios), SegLens(Segs(g, r))) by {
        forall i | 0 <= i < |ios|
          ensures |Datas(ios)[i]| == SegLens(Segs(g, r))[i]
        {
          assert ios[i].(out := Pending) == SegReads(g, stripe, Segs(g, r))[i];
        }
      }
    }
  }

  lemma {:induction false} ReadRepairOk(g: Geo, stripe: nat, r: Req, parts: seq<Bytes>, k: nat, ios: seq<ChildIo>)
    requires g.Valid() && BusyOk(g, stripe, r, ReadRepair(parts, k), ios) && RepairSettled(ios)
    ensures Resume(g, stripe, r, ReadRepair(parts, k), ios).Complete?
  {
    hide Segs, RepairReads, Concat, XorAll;
    if |Failures(ios)| == 0 {
      SettledWithoutFailure(ios);
      assert forall i | 0 <= i < |ios| :: ios[i].(out := Pending) == SegRepair(g, r, k)[i];
      DatasUniform(g, stripe, ios, Segs(g, r)[k].len);
    }
  }

  lemma {:induction false} RmwDataLens(g: Geo, stripe: nat, r: Req, ios: seq<ChildIo>)
    requires g.Valid() && BusyOk(g, stripe, r, RmwRead, ios) && AllDone(ios)
    ensures HasLens(Datas(ios), SegLens(Segs(g, r)) + [g.strip])
    ensures ReqOk(g, stripe, r) && StripeOf(g, r) == stripe && InOneStripe(g, r) && r.kind.Write?
  {
    hide Segs, SegReads;
    forall i | 0 <= i < |ios|
      ensures |Datas(ios)[i]| == (SegLens(Segs(g, r)) + [g.strip])[i]
    {
      assert ios[i].(out := Pending) == RmwReads(g, r)[i];
    }
  }

  /** The first failed read of phase 1 tells which buffer to reconstruct. */
  lemma {:induction false} RmwFailedDisk(g: Geo, stripe: nat, r: Req, ios: seq<ChildIo>, i: nat)
    requires g.Valid() && BusyOk(g, stripe, r, RmwRead, ios) && i < |ios|
    ensures var segs := Segs(g, r);
            && i <= |segs|
            && (i < |segs| ==>
                  ios[i].disk == segs[i].disk != g.Parity(stripe) && Position(segs, segs[i].disk) == Some(i))
            && (i == |segs| ==> ios[i].disk == g.Parity(stripe))
  {
    hide Segs, SegReads, IoOk, Planned, SegLens;
    PlannedReq(g, r);
    assert ios[i].(out := Pending) == RmwReads(g, r)[i];
    if i < |Segs(g, r)| {
      PositionOf(Segs(g, r), i);
    }
  }

  lemma {:induction false} FreshRepair(g: Geo, r: Req, olds: seq<Bytes>, k: nat)
    requires g.Valid() && ReqOk(g, StripeOf(g, r), r) && InOneStripe(g, r) && r.kind.Write?
    requires k <= |Segs(g, r)| && HasLens(olds, SegLens(Segs(g, r)) + [g.strip])
    ensures BusyOk(g, StripeOf(g, r), r, RmwRepair(olds, k),
                   if k < |Segs(g, r)| then SegRepair(g, r, k) else ParityRepair(g, r))
  {
    hide Segs, IoOk, ParityRepair;
    if k < |Segs(g, r)| {
      SegRepairOk(g, r, k);
    } else {
      ParityRepairOk(g, r);
    }
  }

  lemma {:induction false} RmwReadOk(g: Geo, stripe: nat, r: Req, ios: seq<ChildIo>)
    requires g.Valid() && BusyOk(g, stripe, r, RmwRead, ios) && AllDone(ios)
    ensures var o := Resume(g, stripe, r, RmwRead, ios);
            !o.Panic? && (o.Await? ==> BusyOk(g, stripe, r, o.phase, o.ios))
  {
    hide Segs, RepairReads, BeginWrites, BusyOk, Position, Failures, Datas, ReqOk, InOneStripe, HasLens, StripeOf;
    RmwDataLens(g, stripe, r, ios);
    var failed := Failures(ios);
    if |failed| == 0 {
      BeginWritesOk(g, stripe, r, Datas(ios));
    } else if |failed| == 1 {
      RmwFailedDisk(g, stripe, r, ios, failed[0]);
      FreshRepair(g, r, Datas(ios), failed[0]);
    }
  }

  lemma {:induction false} RmwRepairOk(g: Geo, stripe: nat, r: Req, olds: seq<Bytes>, k: nat, ios: seq<ChildIo>)
    requires g.Valid() && BusyOk(g, stripe, r, RmwRepair(olds, k), ios) && RepairSettled(ios)
    ensures var o := Resume(g, stripe, r, RmwRepair(olds, k), ios);
            !o.Panic? && (o.Await? ==> BusyOk(g, stripe, r, o.phase, o.ios))
  {
    hide Segs, RepairReads, BeginWrites, XorAll, BusyOk, SegRepair, ParityRepair, ReqOk, InOneStripe, StripeOf,
         RepairSettled, Failures, HasLens, SegLens;
    if |Failures(ios)| == 0 {
      RepairedLens(g, stripe, r, olds, k, ios);
      var len := if k < |Segs(g, r)| then Segs(g, r)[k].len else g.strip;
      BeginWritesOk(g, stripe, r, olds[k := XorAll(Datas(ios), len)]);
    }
  }

  /** What is awaited while a read of phase 1 is rebuilt. */
  lemma {:induction false} RepairOf(g: Geo, stripe: nat, r: Req, olds: seq<Bytes>, k: nat, ios: seq<ChildIo>)
    requires g.Valid() && BusyOk(g, stripe, r, RmwRepair(olds, k), ios)
    ensures k <= |Segs(g, r)| && HasLens(olds, SegLens(Segs(g, r)) + [g.strip])
    ensures ReqOk(g, stripe, r) && InOneStripe(g, r) && r.kind.Write?
    ensures forall i | 0 <= i < |ios| :: IoOk(g, stripe, ios[i], false)
    ensures SamePlan(ios, if k < |Segs(g, r)| then SegRepair(g, r, k) else ParityRepair(g, r))
  {
    hide Segs, RepairReads, IoOk, ReqOk, SamePlan, SegRepair, ParityRepair;
  }

  /** A successful reconstruction has the length of what it replaces. */
  lemma {:induction false} RepairedLens(g: Geo, stripe: nat, r: Req, olds: seq<Bytes>, k: nat, ios: seq<ChildIo>)
    requires g.Valid() && BusyOk(g, stripe, r, RmwRepair(olds, k), ios) && RepairSettled(ios) && |Failures(ios)| == 0
    ensures k <= |Segs(g, r)| && k < |olds| && AllDone(ios) && ReqOk(g, stripe, r) && InOneStripe(g, r) && r.kind.Write?
    ensures var len := if k < |Segs(g, r)| then Segs(g, r)[k].len else g.strip;
            && Uniform(Datas(ios), len)
            && HasLens(olds[k := XorAll(Datas(ios), len)], SegLens(Segs(g, r)) + [g.strip])
  {
    hide Segs, RepairReads, XorAll, BusyOk, IoOk, ReqOk, RepairSettled, Failures, AllDone, StripeOf, InOneStripe;
    SettledWithoutFailure(ios);
    RepairOf(g, stripe, r, olds, k, ios);
    var len := if k < |Segs(g, r)| then Segs(g, r)[k].len else g.strip;
    var plan := if k < |Segs(g, r)| then SegRepair(g, r, k) else ParityRepair(g, r);
    assert forall i | 0 <= i < |ios| :: ios[i].(out := Pending) == plan[i];
    DatasUniform(g, stripe, ios, len);
  }

  /** One more child I/O done. */
  lemma {:induction false} DoneOk(g: Geo, stripe: nat, r: Req, phase: Phase, ios: seq<ChildIo>, i: nat, o: Outcome)
    requires g.Valid() && BusyOk(g, stripe, r, phase, ios) && i < |ios|
    requires o.Done? && |o.data| == ios[i].len
    ensures BusyOk(g, stripe, r, phase, ios[i := ios[i].(out := o)])
  {
    hide Segs, SegReads, RepairReads, SegLens;
  }
}
