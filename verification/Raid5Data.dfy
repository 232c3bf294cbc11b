/** What the data of a request in progress means, on one stripe, when at most one disk is
    dead and reads may fail: every step brings its rows from those of the old stripe bytes to
    those of the new. */
module Raid5Data {
  import opened XorAlgebra
  import opened Geometry
  import opened Strips
  import opened Parity
  import opened StripeQueues
  import opened Raid5Machine
  import opened Raid5Shape

  /** A stripe's contents: its logical bytes, and how far its parity is off, byte by byte.
      A skew of zeros is consistent parity. */
  datatype Stripe = Stripe(bytes: Bytes, skew: Bytes)

  predicate Whole(g: Geo, fs: Stripe)
    requires g.Valid()
  {
    |fs.bytes| == g.StripeLen() && |fs.skew| == g.strip
  }

  predicate Straight(g: Geo, fs: Stripe) { fs.skew == Zeros(g.strip) }

  /** The data of a stripe survives a dead disk: its parity is right, or is what was lost. */
  predicate Safe(g: Geo, stripe: nat, dead: Option<nat>, fs: Stripe)
    requires g.Valid()
  {
    dead.Some? ==> Straight(g, fs) || dead.value == g.Parity(stripe)
  }

  /** What every disk should hold of a stripe. */
  function Exp(g: Geo, stripe: nat, fs: Stripe): (r: seq<Bytes>)
    requires g.Valid() && Whole(g, fs)
    ensures |r| == g.ndisks && forall d | 0 <= d < g.ndisks :: |r[d]| == g.strip
  {
    var e, p := Expected(fs.bytes, g.strip, g.ndisks, g.Parity(stripe)), g.Parity(stripe);
    e[p := XorBytes(e[p], fs.skew)]
  }

  /** Consistent or not, the data disks hold the data; a straight stripe has its own parity. */
  lemma {:induction false} ExpIs(g: Geo, stripe: nat, fs: Stripe)
    requires g.Valid() && Whole(g, fs)
    ensures |fs.bytes| == (g.ndisks - 1) * g.strip
    ensures forall d | 0 <= d < g.ndisks && d != g.Parity(stripe) ::
              Exp(g, stripe, fs)[d] == Expected(fs.bytes, g.strip, g.ndisks, g.Parity(stripe))[d]
    ensures Exp(g, stripe, fs)[g.Parity(stripe)]
            == XorBytes(Expected(fs.bytes, g.strip, g.ndisks, g.Parity(stripe))[g.Parity(stripe)], fs.skew)
    ensures Straight(g, fs) ==> Exp(g, stripe, fs) == Expected(fs.bytes, g.strip, g.ndisks, g.Parity(stripe))
  {
    hide Expected, XorBytes, Zeros;
    if Straight(g, fs) {
      XorNothing(Expected(fs.bytes, g.strip, g.ndisks, g.Parity(stripe))[g.Parity(stripe)]);
    }
  }

  /** A write of a whole stripe. */
  predicate FullWrite(g: Geo, r: Req)
    requires g.Valid()
  {
    r.kind.Write? && StartOf(g, r) == 0 && r.len == g.StripeLen()
  }

  /** The stripe after request r. A partial write keeps its skew, a whole one makes it straight. */
  function After(g: Geo, r: Req, fs: Stripe): (now: Stripe)
    requires g.Valid() && Whole(g, fs)
    ensures Whole(g, now)
  {
    if r.kind.Write? && StartOf(g, r) + |r.kind.data| <= |fs.bytes| then
      Stripe(Splice(fs.bytes, StartOf(g, r), r.kind.data), if FullWrite(g, r) then Zeros(g.strip) else fs.skew)
    else fs
  }

  /** Every living disk holds what it should. */
  ghost predicate Matches(rows: seq<Bytes>, dead: Option<nat>, exp: seq<Bytes>) {
    |rows| == |exp| && forall d | 0 <= d < |rows| && dead != Some(d) :: rows[d] == exp[d]
  }

  /** A stripe as a request leaves it that lost a child read before it wrote: the only one a
      stripe that is not straight can do without is that of its parity, which is then rebuilt. */
  function Mended(g: Geo, fs: Stripe, lost: nat): (now: Stripe)
    requires g.Valid() && Whole(g, fs)
    ensures Whole(g, now) && now.bytes == fs.bytes
    ensures Straight(g, fs) || lost == 0 ==> now == fs
  {
    if lost > 0 then fs.(skew := Zeros(g.strip)) else fs
  }

  /** A read that succeeded brought the expected bytes. */
  ghost predicate ReadOk(io: ChildIo, base: nat, exp: seq<Bytes>) {
    io.out.Done? && io.out.ok ==>
      && io.disk < |exp| && base <= io.lo && io.lo - base + io.len <= |exp[io.disk]|
      && io.out.data == exp[io.disk][io.lo - base..io.lo - base + io.len]
  }

  ghost predicate ReadsOk(ios: seq<ChildIo>, base: nat, exp: seq<Bytes>) {
    forall i | 0 <= i < |ios| :: ReadOk(ios[i], base, exp)
  }

  /** Of these reads at most that of disk p has failed. */
  ghost predicate OnlyLost(ios: seq<ChildIo>, p: nat) {
    forall i | 0 <= i < |ios| && Failed(ios[i]) :: ios[i].disk == p
  }

  /** Buffer `part` holds what I/O `io` should read. */
  ghost predicate RightPart(io: ChildIo, base: nat, part: Bytes, exp: seq<Bytes>) {
    && io.disk < |exp| && base <= io.lo && io.lo - base + io.len <= |exp[io.disk]|
    && part == exp[io.disk][io.lo - base..io.lo - base + io.len]
  }

  /** All buffers but k hold what the planned reads should bring. */
  ghost predicate RightBut(parts: seq<Bytes>, plan: seq<ChildIo>, base: nat, exp: seq<Bytes>, k: nat) {
    |parts| == |plan| && forall i | 0 <= i < |parts| && i != k :: RightPart(plan[i], base, parts[i], exp)
  }

  ghost predicate Untouched(ios: seq<ChildIo>, d: nat) {
    forall i | 0 <= i < |ios| :: ios[i].disk != d
  }

  /** The disks a write has to update. */
  ghost predicate Touches(g: Geo, r: Req, d: nat)
    requires g.Valid()
  {
    d == g.Parity(StripeOf(g, r)) || exists k :: 0 <= k < |Segs(g, r)| && Segs(g, r)[k].disk == d
  }

  /** The planned writes, all done, take a stripe from `exp` to `now`. */
  ghost predicate WritePlan(ios: seq<ChildIo>, base: nat, exp: seq<Bytes>, now: seq<Bytes>) {
    && |exp| == |now|
    && (forall i | 0 <= i < |ios| ::
          && ios[i].disk < |exp| && ios[i].dir.Out? && base <= ios[i].lo
          && ios[i].lo - base + |ios[i].dir.data| <= |exp[ios[i].disk]|
          && Splice(exp[ios[i].disk], ios[i].lo - base, ios[i].dir.data) == now[ios[i].disk])
    && (forall d | 0 <= d < |exp| && Untouched(ios, d) :: now[d] == exp[d])
  }

  /** How far the writes have got on the living disks. */
  ghost predicate WriteProgress(ios: seq<ChildIo>, rows: seq<Bytes>, dead: Option<nat>, began: Option<nat>,
                                exp: seq<Bytes>, now: seq<Bytes>) {
    && |rows| == |exp| == |now|
    && (forall d | 0 <= d < |exp| && Untouched(ios, d) && dead != Some(d) :: rows[d] == exp[d])
    && (forall i | 0 <= i < |ios| ::
          && ios[i].disk < |exp|
          && (dead != Some(ios[i].disk) ==>
                rows[ios[i].disk] == if ios[i].out.Done? then now[ios[i].disk] else exp[ios[i].disk])
          && (Failed(ios[i]) ==> dead == Some(ios[i].disk))
          && (ios[i].out.Done? && began == Some(ios[i].disk) ==> Failed(ios[i])))
  }

  ghost predicate WritesTouched(g: Geo, r: Req, ios: seq<ChildIo>)
    requires g.Valid()
  {
    && (forall i | 0 <= i < |ios| :: Touches(g, r, ios[i].disk))
    && (forall d: nat | Touches(g, r, d) :: !Untouched(ios, d))
  }

  ghost predicate PhaseData(g: Geo, r: Req, began: Option<nat>, lost: nat, phase: Phase, ios: seq<ChildIo>,
                            rows: seq<Bytes>, dead: Option<nat>, fs: Stripe)
    requires g.Valid() && Whole(g, fs)
  {
    var stripe, straight := StripeOf(g, r), Straight(g, fs);
    var base, exp := g.Base(stripe), Exp(g, stripe, fs);
    && (began.Some? ==> dead == began) && Safe(g, stripe, dead, fs)
    && (!phase.WriteWait? ==> Matches(rows, dead, exp) && ReadsOk(ios, base, exp))
    && match phase
       case ReadWait => straight || OnlyLost(ios, g.Parity(stripe))
       case ReadRepair(parts, k) =>
         straight && k < |Segs(g, r)| && RightBut(parts, SegReads(g, stripe, Segs(g, r)), base, exp, k)
       case RmwRead => lost == 0 && !FullWrite(g, r) && (straight || OnlyLost(ios, g.Parity(stripe)))
       case RmwRepair(olds, k) =>
         && lost > 0 && !FullWrite(g, r) && (straight || k == |Segs(g, r)|)
         && k < |RmwReads(g, r)| && RightBut(olds, RmwReads(g, r), base, exp, k)
       case WriteWait =>
         var now := Exp(g, stripe, After(g, r, Mended(g, fs, lost)));
         WritePlan(ios, base, exp, now) && WriteProgress(ios, rows, dead, began, exp, now) && WritesTouched(g, r, ios)
  }

  // Plans.

  /** The reads of a request, done right, are the bytes asked for. */
  lemma {:induction false} SegPartsRead(g: Geo, r: Req, fs: Stripe, parts: seq<Bytes>)
    requires g.Valid() && InOneStripe(g, r) && Whole(g, fs)
    requires |parts| == |Segs(g, r)|
    requires forall k | 0 <= k < |parts| ::
               RightPart(ReadIo(g, StripeOf(g, r), Segs(g, r)[k]), g.Base(StripeOf(g, r)), parts[k],
                         Exp(g, StripeOf(g, r), fs))
    ensures Concat(parts) == fs.bytes[StartOf(g, r)..StartOf(g, r) + r.len]
  {
    hide Segs, Planned, Concat, Expected, RightPart, ReadIo, StripeOf, StartOf, InOneStripe, Geo.Parity, Geo.Base,
         Geo.StripeLen, Exp;
    var p, start, j0 := PlanOf(g, r);
    ExpIs(g, StripeOf(g, r), fs);
    forall k | 0 <= k < |parts|
      ensures var s := Segs(g, r)[k];
              && s.disk < g.ndisks && s.off + s.len <= g.strip
              && parts[k] == Expected(fs.bytes, g.strip, g.ndisks, p)[s.disk][s.off..s.off + s.len]
    {
      SegPart(g, StripeOf(g, r), Segs(g, r)[k], parts[k], Exp(g, StripeOf(g, r), fs));
    }
    ReadCorrect(fs.bytes, Segs(g, r), g.strip, g.ndisks, p, start, r.len, j0, parts);
  }

  lemma {:induction false} SegPart(g: Geo, stripe: nat, s: Strip, part: Bytes, exp: seq<Bytes>)
    requires g.Valid() && RightPart(ReadIo(g, stripe, s), g.Base(stripe), part, exp)
    ensures s.disk < |exp| && s.off + s.len <= |exp[s.disk]| && part == exp[s.disk][s.off..s.off + s.len]
  {
  }

  /** Reads of one range from all disks but one, done right, reconstruct that one. */
  lemma {:induction false} RepairReadsRight(g: Geo, stripe: nat, fs: Stripe, skip: nat, off: nat, len: nat,
                                            ios: seq<ChildIo>)
    requires g.Valid() && Whole(g, fs) && Straight(g, fs) && skip < g.ndisks && off + len <= g.strip
    requires SamePlan(ios, RepairReads(skip, g.Base(stripe) + off, len, g.ndisks - 1))
    requires ReadsOk(ios, g.Base(stripe), Exp(g, stripe, fs)) && AllDone(ios) && |Failures(ios)| == 0
    ensures Uniform(Datas(ios), len)
    ensures XorAll(Datas(ios), len) == Exp(g, stripe, fs)[skip][off..off + len]
  {
    hide Exp, Expected, XorAll, Slices, Datas, RepairReads, ReadsOk, SamePlan, Failures;
    var base, exp := g.Base(stripe), Exp(g, stripe, fs);
    ExpIs(g, stripe, fs);
    ReconstructCorrect(fs.bytes, g.strip, g.ndisks, g.Parity(stripe), skip, off, len);
    var slices := Slices(Without(exp, skip), g.strip, off, len);
    SameLength(ios, RepairReads(skip, base + off, len, g.ndisks - 1));
    forall i | 0 <= i < |ios|
      ensures Datas(ios)[i] == slices[i]
    {
      RepairReadRight(g, skip, base, off, len, ios, exp, i);
      assert Without(exp, skip)[i] == exp[OtherDisk(skip, i)];
    }
    assert Datas(ios) == slices;
  }

  lemma {:induction false} SameLength(ios: seq<ChildIo>, plan: seq<ChildIo>)
    requires SamePlan(ios, plan)
    ensures |ios| == |plan|
  {
  }

  lemma {:induction false} RepairReadRight(g: Geo, skip: nat, base: nat, off: nat, len: nat, ios: seq<ChildIo>,
                                           exp: seq<Bytes>, i: nat)
    requires g.Valid() && SamePlan(ios, RepairReads(skip, base + off, len, g.ndisks - 1)) && i < |ios|
    requires ReadsOk(ios, base, exp) && AllDone(ios) && |Failures(ios)| == 0
    ensures OtherDisk(skip, i) < |exp| && off + len <= |exp[OtherDisk(skip, i)]|
    ensures Datas(ios)[i] == exp[OtherDisk(skip, i)][off..off + len]
  {
    hide RepairReads, Failures, Datas, Geo.Base;
    NoneFailed(ios);
    assert !Failed(ios[i]) && ReadOk(ios[i], base, exp);
    assert ios[i].(out := Pending) == RepairReads(skip, base + off, len, g.ndisks - 1)[i];
  }

  /** Writing the segments of r takes the data disks from `exp` to `now`. */
  ghost predicate SegsMake(g: Geo, r: Req, exp: seq<Bytes>, now: seq<Bytes>)
    requires g.Valid()
  {
    && r.kind.Write? && |exp| == |now|
    && (forall k | 0 <= k < |Segs(g, r)| ::
          var s := Segs(g, r)[k];
          && s.disk < |exp| && s.off + s.len <= |exp[s.disk]| && s.pos + s.len <= |r.kind.data|
          && Splice(exp[s.disk], s.off, Piece(s, r.kind.data)) == now[s.disk])
    && (forall d | 0 <= d < |exp| && !Touches(g, r, d) :: now[d] == exp[d])
  }

  /** A write inside a stripe, in plain terms. */
  lemma {:induction false} AfterWrite(g: Geo, r: Req, fs: Stripe)
    requires g.Valid() && ValidReq(g, r) && InOneStripe(g, r) && r.kind.Write? && Whole(g, fs)
    ensures |r.kind.data| == r.len && StartOf(g, r) + r.len <= |fs.bytes| == (g.ndisks - 1) * g.strip
    ensures After(g, r, fs).bytes == Splice(fs.bytes, StartOf(g, r), r.kind.data)
    ensures After(g, r, fs).skew == if FullWrite(g, r) then Zeros(g.strip) else fs.skew
  {
  }

  lemma {:induction false} SegMade(g: Geo, r: Req, fs: Stripe, k: nat, p: nat)
    requires g.Valid() && ValidReq(g, r) && InOneStripe(g, r) && r.kind.Write? && Whole(g, fs) && k < |Segs(g, r)|
    requires p == g.Parity(StripeOf(g, r))
    ensures |fs.bytes| == |After(g, r, fs).bytes| == (g.ndisks - 1) * g.strip
    ensures var s := Segs(g, r)[k];
            && s.disk < g.ndisks && s.disk != p && s.off + s.len <= g.strip && s.pos + s.len <= |r.kind.data|
            && Splice(Expected(fs.bytes, g.strip, g.ndisks, p)[s.disk], s.off, Piece(s, r.kind.data))
               == Expected(After(g, r, fs).bytes, g.strip, g.ndisks, p)[s.disk]
  {
    hide Segs, Expected, Splice, Planned, After, ValidReq, InOneStripe, FullWrite, StripeOf, StartOf, Geo.Parity,
         Geo.StripeLen;
    var p0, start, j0 := PlanOf(g, r);
    AfterWrite(g, r, fs);
    WriteInSegment(fs.bytes, Segs(g, r), g.strip, g.ndisks, p, start, r.kind.data, j0, k);
  }

  /** Whatever the skew before and after. */
  lemma {:induction false} SegsMakeStripe(g: Geo, r: Req, fs: Stripe, was: Stripe)
    requires g.Valid() && ValidReq(g, r) && InOneStripe(g, r) && r.kind.Write? && Whole(g, fs) && Whole(g, was)
    requires was.bytes == fs.bytes
    ensures SegsMake(g, r, Exp(g, StripeOf(g, r), fs), Exp(g, StripeOf(g, r), After(g, r, was)))
  {
    hide Segs, Exp, Expected, Splice, Touches, ValidReq, InOneStripe, StripeOf, After, Whole, Geo.Parity, Geo.StripeLen;
    forall k | 0 <= k < |Segs(g, r)|
      ensures var s, stripe := Segs(g, r)[k], StripeOf(g, r);
              && s.disk < g.ndisks && s.off + s.len <= g.strip && s.pos + s.len <= |r.kind.data|
              && Splice(Exp(g, stripe, fs)[s.disk], s.off, Piece(s, r.kind.data))
                 == Exp(g, stripe, After(g, r, was))[s.disk]
    {
      SegMade(g, r, was, k, g.Parity(StripeOf(g, r)));
      DataStripIs(g, StripeOf(g, r), fs, Segs(g, r)[k].disk);
      DataStripIs(g, StripeOf(g, r), After(g, r, was), Segs(g, r)[k].disk);
    }
    forall x | 0 <= x < g.ndisks && !Touches(g, r, x)
      ensures Exp(g, StripeOf(g, r), After(g, r, was))[x] == Exp(g, StripeOf(g, r), fs)[x]
    {
      UntouchedStrip(g, r, fs, was, x);
    }
  }

  lemma {:induction false} DataStripIs(g: Geo, stripe: nat, fs: Stripe, d: nat)
    requires g.Valid() && Whole(g, fs) && d < g.ndisks && d != g.Parity(stripe)
    ensures |fs.bytes| == (g.ndisks - 1) * g.strip
    ensures Exp(g, stripe, fs)[d] == Expected(fs.bytes, g.strip, g.ndisks, g.Parity(stripe))[d]
  {
  }

  /** Read-modify-write from the right old buffers gives the parity of the new stripe. */
  lemma {:induction false} NewParity(g: Geo, r: Req, fs: Stripe, olds: seq<Bytes>)
    requires g.Valid() && ValidReq(g, r) && InOneStripe(g, r) && r.kind.Write? && Whole(g, fs) && !FullWrite(g, r)
    requires Fitting(Segs(g, r), g.strip, olds, r.kind.data)
    requires forall k | 0 <= k < |olds| ::
               RightPart(ReadIo(g, StripeOf(g, r), Segs(g, r)[k]), g.Base(StripeOf(g, r)), olds[k],
                         Exp(g, StripeOf(g, r), fs))
    ensures var p := g.Parity(StripeOf(g, r));
            Rmw(Exp(g, StripeOf(g, r), fs)[p], Segs(g, r), olds, r.kind.data, |Segs(g, r)|)
            == Exp(g, StripeOf(g, r), After(g, r, fs))[p]
  {
    hide Segs, Exp, Expected, Rmw, Splice, Planned, ValidReq, InOneStripe, StripeOf, StartOf, After, FullWrite,
         RightPart, ReadIo, XorBytes, Geo.Parity, Geo.StripeLen, Geo.Base;
    var p, start, j0 := PlanOf(g, r);
    AfterWrite(g, r, fs);
    ExpIs(g, StripeOf(g, r), fs);
    ExpIs(g, StripeOf(g, r), After(g, r, fs));
    forall k | 0 <= k < |olds|
      ensures var s := Segs(g, r)[k];
              && s.disk < g.ndisks && s.off + s.len <= g.strip
              && olds[k] == Expected(fs.bytes, g.strip, g.ndisks, p)[s.disk][s.off..s.off + s.len]
    {
      SegPart(g, StripeOf(g, r), Segs(g, r)[k], olds[k], Exp(g, StripeOf(g, r), fs));
    }
    RmwCorrect(fs.bytes, fs.skew, Segs(g, r), g.strip, g.ndisks, p, start, olds, r.kind.data, j0);
  }

  lemma {:induction false} ParityTouched(g: Geo, r: Req)
    requires g.Valid()
    ensures Touches(g, r, g.Parity(StripeOf(g, r)))
  {
  }

  lemma {:induction false} StripTouched(g: Geo, r: Req, k: nat)
    requires g.Valid() && InOneStripe(g, r) && k < |Segs(g, r)|
    ensures Touches(g, r, DataDisk(StartOf(g, r) / g.strip + k, g.Parity(StripeOf(g, r))))
  {
    hide Segs, Covers, Tiles, Planned, StripeOf, StartOf, InOneStripe, Geo.Parity;
    PlannedReq(g, r);
    PlannedAt(Segs(g, r), g.strip, g.ndisks, g.Parity(StripeOf(g, r)), StartOf(g, r), r.len,
              StartOf(g, r) / g.strip, k);
    assert Segs(g, r)[k].disk == DataDisk(StartOf(g, r) / g.strip + k, g.Parity(StripeOf(g, r)));
  }

  lemma {:induction false} OutsideSegs(g: Geo, r: Req, x: nat, p: nat, j0: nat)
    requires g.Valid() && InOneStripe(g, r) && !Touches(g, r, x)
    requires p == g.Parity(StripeOf(g, r)) && j0 == StartOf(g, r) / g.strip
    ensures x != p && (DataStrip(x, p) < j0 || j0 + |Segs(g, r)| <= DataStrip(x, p))
  {
    hide Segs, Touches, StripeOf, StartOf, InOneStripe;
    ParityTouched(g, r);
    var j := DataStrip(x, p);
    if j0 <= j < j0 + |Segs(g, r)| {
      StripTouched(g, r, j - j0);
    }
  }

  lemma {:induction false} UntouchedData(g: Geo, r: Req, fs: Stripe, x: nat, p: nat)
    requires g.Valid() && ValidReq(g, r) && InOneStripe(g, r) && r.kind.Write? && Whole(g, fs)
    requires x < g.ndisks && !Touches(g, r, x) && p == g.Parity(StripeOf(g, r))
    ensures x != p && |fs.bytes| == |After(g, r, fs).bytes| == (g.ndisks - 1) * g.strip
    ensures Expected(After(g, r, fs).bytes, g.strip, g.ndisks, p)[x] == Expected(fs.bytes, g.strip, g.ndisks, p)[x]
  {
    hide Segs, Expected, Splice, Planned, Touches, After, ValidReq, FullWrite;
    PlannedReq(g, r);
    AfterWrite(g, r, fs);
    var j0 := StartOf(g, r) / g.strip;
    OutsideSegs(g, r, x, p, j0);
    WriteElsewhere(fs.bytes, Segs(g, r), g.strip, g.ndisks, p, StartOf(g, r), r.kind.data, j0, DataStrip(x, p));
  }

  lemma {:induction false} UntouchedStrip(g: Geo, r: Req, fs: Stripe, was: Stripe, x: nat)
    requires g.Valid() && ValidReq(g, r) && InOneStripe(g, r) && r.kind.Write? && Whole(g, fs) && Whole(g, was)
    requires x < g.ndisks && !Touches(g, r, x) && was.bytes == fs.bytes
    ensures Exp(g, StripeOf(g, r), After(g, r, was))[x] == Exp(g, StripeOf(g, r), fs)[x]
  {
    hide Segs, Exp, Expected, Touches, StripeOf, InOneStripe, ValidReq, After, Geo.Parity, Geo.StripeLen;
    ExpIs(g, StripeOf(g, r), fs);
    ExpIs(g, StripeOf(g, r), After(g, r, was));
    UntouchedData(g, r, was, x, g.Parity(StripeOf(g, r)));
  }

  // Reads.

  lemma {:induction false} PlannedDisks(g: Geo, r: Req, ios: seq<ChildIo>)
    requires g.Valid() && InOneStripe(g, r)
    requires SamePlan(ios, RmwReads(g, r)) || SamePlan(ios, SegReads(g, StripeOf(g, r), Segs(g, r)))
    ensures DistinctDisks(ios)
  {
    hide Segs, SegReads, IoOk;
    ReadPlansOk(g, r);
    var plan := RmwReads(g, r);
    forall i, j | 0 <= i < j < |ios|
      ensures ios[i].disk != ios[j].disk
    {
      assert ios[i].(out := Pending) == plan[i] && ios[j].(out := Pending) == plan[j];
    }
  }

  lemma {:induction false} NoFailures(ios: seq<ChildIo>)
    requires forall i | 0 <= i < |ios| :: !Failed(ios[i])
    ensures Failures(ios) == []
    decreases |ios|
  {
    if |ios| > 0 {
      NoFailures(ios[..|ios| - 1]);
    }
  }

  /** The only failed I/O. */
  lemma {:induction false} OneFailure(ios: seq<ChildIo>)
    requires |Failures(ios)| == 1
    ensures var k := Failures(ios)[0];
            k < |ios| && Failed(ios[k]) && forall i | 0 <= i < |ios| && i != k :: !Failed(ios[i])
  {
    forall i | 0 <= i < |ios| && Failed(ios[i])
      ensures i == Failures(ios)[0]
    {
      assert i in Failures(ios);
    }
  }

  lemma {:induction false} NoneFailed(ios: seq<ChildIo>)
    requires |Failures(ios)| == 0
    ensures forall i | 0 <= i < |ios| :: !Failed(ios[i])
  {
  }

  /** A done read that did not fail brought what its plan says. */
  lemma {:induction false} ReadRight(ios: seq<ChildIo>, plan: seq<ChildIo>, base: nat,
                                     exp: seq<Bytes>, i: nat)
    requires SamePlan(ios, plan) && ReadsOk(ios, base, exp) && AllDone(ios)
    requires i < |ios| && !Failed(ios[i])
    ensures i < |plan| && RightPart(plan[i], base, Datas(ios)[i], exp)
  {
  }

  lemma {:induction false} PendingReads(ios: seq<ChildIo>, base: nat, exp: seq<Bytes>)
    requires forall i | 0 <= i < |ios| :: ios[i].out.Pending?
    ensures ReadsOk(ios, base, exp)
  {
  }

  lemma {:induction false} SegReadsFresh(g: Geo, stripe: nat, segs: seq<Strip>)
    requires g.Valid()
    ensures forall i | 0 <= i < |SegReads(g, stripe, segs)| :: SegReads(g, stripe, segs)[i].out.Pending?
  {
  }

  lemma {:induction false} RepairReadsFresh(skip: nat, lo: nat, len: nat, m: nat)
    ensures forall i | 0 <= i < |RepairReads(skip, lo, len, m)| :: RepairReads(skip, lo, len, m)[i].out.Pending?
  {
  }

  /** What a completed request must have reported; `took` says whether it got to its write phase. */
  ghost predicate RightAnswer(g: Geo, r: Req, began: Option<nat>, took: bool, status: Status, data: Bytes,
                              dead: Option<nat>, fs: Stripe)
    requires g.Valid() && Whole(g, fs)
  {
    && (began.Some? ==> dead == began)
    && (r.kind.Read? && status == Success ==>
          StartOf(g, r) + r.len <= |fs.bytes| && data == fs.bytes[StartOf(g, r)..StartOf(g, r) + r.len])
    && (took ==>
          && r.kind.Write?
          && (status == Success && began.Some? ==> !Touches(g, r, began.value))
          && (status == Failure ==> dead.Some? && Touches(g, r, dead.value)))
  }

  /** A request goes on properly, or has been answered properly and the rows are those of the
      stripe after it: as before, unless its writes took place. */
  ghost predicate GoesOn(g: Geo, r: Req, began: Option<nat>, lost: nat, took: bool, o: Outlook, rows: seq<Bytes>,
                         dead: Option<nat>, fs: Stripe)
    requires g.Valid() && Whole(g, fs)
  {
    match o
    case Await(phase, ios) => PhaseData(g, r, began, lost, phase, ios, rows, dead, fs)
    case Complete(status, data) =>
      && RightAnswer(g, r, began, took, status, data, dead, fs)
      && Matches(rows, dead, Exp(g, StripeOf(g, r), if took then After(g, r, Mended(g, fs, lost)) else fs))
    case Panic => false
  }

  lemma {:induction false} ReadWaitData(g: Geo, r: Req, began: Option<nat>, lost: nat, ios: seq<ChildIo>,
                                        rows: seq<Bytes>, dead: Option<nat>, fs: Stripe)
    requires g.Valid() && Whole(g, fs) && AllDone(ios) && BusyOk(g, StripeOf(g, r), r, ReadWait, ios)
    requires PhaseData(g, r, began, lost, ReadWait, ios, rows, dead, fs)
    ensures GoesOn(g, r, began, LostAfter(lost, ReadWait, ios), false, Resume(g, StripeOf(g, r), r, ReadWait, ios),
                   rows, dead, fs)
  {
    hide Segs, Exp, SegReads, RepairReads, Concat, IoOk, Failures, Datas, ReadsOk, RightPart, DistinctDisks, SamePlan,
         Straight, LostAfter, Mended;
    var stripe := StripeOf(g, r);
    var base, exp, plan := g.Base(stripe), Exp(g, stripe, fs), SegReads(g, stripe, Segs(g, r));
    assert SamePlan(ios, plan);
    SameLength(ios, plan);
    forall i | 0 <= i < |ios| && !Failed(ios[i])
      ensures RightPart(plan[i], base, Datas(ios)[i], exp)
    {
      ReadRight(ios, plan, base, exp, i);
    }
    if |Failures(ios)| == 0 {
      NoneFailed(ios);
      SegPartsRead(g, r, fs, Datas(ios));
    } else if |Failures(ios)| == 1 {
      OneFailure(ios);
      var k := Failures(ios)[0];
      var s := Segs(g, r)[k];
      assert s.disk != g.Parity(stripe) by { PlannedReq(g, r); }
      SameDisk(ios, plan, k);
      RepairReadsFresh(s.disk, base + s.off, s.len, g.ndisks - 1);
      PendingReads(RepairReads(s.disk, base + s.off, s.len, g.ndisks - 1), base, exp);
    }
  }

  lemma {:induction false} SameDisk(ios: seq<ChildIo>, plan: seq<ChildIo>, k: nat)
    requires SamePlan(ios, plan) && k < |ios|
    ensures k < |plan| && ios[k].disk == plan[k].disk
  {
  }

  /** Putting the reconstructed buffer in completes the set. */
  lemma {:induction false} RepairFills(g: Geo, stripe: nat, fs: Stripe, plan: seq<ChildIo>, parts: seq<Bytes>, k: nat,
                                       off: nat, ios: seq<ChildIo>)
    requires g.Valid() && Whole(g, fs) && Straight(g, fs) && k < |plan|
             && RightBut(parts, plan, g.Base(stripe), Exp(g, stripe, fs), k)
    requires plan[k].disk < g.ndisks && plan[k].lo == g.Base(stripe) + off && off + plan[k].len <= g.strip
    requires SamePlan(ios, RepairReads(plan[k].disk, g.Base(stripe) + off, plan[k].len, g.ndisks - 1))
    requires ReadsOk(ios, g.Base(stripe), Exp(g, stripe, fs)) && AllDone(ios) && |Failures(ios)| == 0
    ensures Uniform(Datas(ios), plan[k].len) && |parts| == |plan|
    ensures RightBut(parts[k := XorAll(Datas(ios), plan[k].len)], plan, g.Base(stripe), Exp(g, stripe, fs), |plan|)
  {
    hide Exp, RepairReads, XorAll, Datas, SamePlan, ReadsOk, Straight, AllDone, Failures;
    RepairReadsRight(g, stripe, fs, plan[k].disk, off, plan[k].len, ios);
  }

  lemma {:induction false} ReadRepairData(g: Geo, r: Req, began: Option<nat>, lost: nat, parts: seq<Bytes>, k: nat,
                                          ios: seq<ChildIo>, rows: seq<Bytes>, dead: Option<nat>, fs: Stripe)
    requires g.Valid() && Whole(g, fs) && RepairSettled(ios)
    requires BusyOk(g, StripeOf(g, r), r, ReadRepair(parts, k), ios)
    requires PhaseData(g, r, began, lost, ReadRepair(parts, k), ios, rows, dead, fs)
    ensures GoesOn(g, r, began, LostAfter(lost, ReadRepair(parts, k), ios), false,
                   Resume(g, StripeOf(g, r), r, ReadRepair(parts, k), ios), rows, dead, fs)
  {
    hide Segs, Exp, SegReads, RepairReads, Concat, IoOk, Failures, Datas, ReadsOk, RightPart, SamePlan, XorAll, Planned,
         RepairSettled;
    var stripe := StripeOf(g, r);
    var plan, s := SegReads(g, stripe, Segs(g, r)), Segs(g, r)[k];
    if |Failures(ios)| == 0 {
      SettledWithoutFailure(ios);
      PlannedReq(g, r);
      RepairFills(g, stripe, fs, plan, parts, k, s.off, ios);
      SegPartsRead(g, r, fs, parts[k := XorAll(Datas(ios), s.len)]);
    }
  }

  // Writes.

  /** All old buffers right: the writes that follow are the right ones. */
  lemma {:induction false} BeginWritesData(g: Geo, r: Req, began: Option<nat>, lost: nat, olds: seq<Bytes>,
                                           rows: seq<Bytes>, dead: Option<nat>, fs: Stripe)
    requires g.Valid() && Whole(g, fs) && ReqOk(g, StripeOf(g, r), r) && InOneStripe(g, r) && r.kind.Write?
    requires !FullWrite(g, r) && HasLens(olds, SegLens(Segs(g, r)) + [g.strip])
    requires RightBut(olds, RmwReads(g, r), g.Base(StripeOf(g, r)), Exp(g, StripeOf(g, r), Mended(g, fs, lost)), |olds|)
    requires Matches(rows, dead, Exp(g, StripeOf(g, r), fs)) && (began.Some? ==> dead == began)
    requires Safe(g, StripeOf(g, r), dead, fs)
    ensures GoesOn(g, r, began, lost, false, BeginWrites(g, StripeOf(g, r), r, olds), rows, dead, fs)
  {
    hide Segs, Exp, BeginWrites, WritePlan, WriteProgress, WritesTouched, AllWrites, SegsMake, SegLens, Touches,
         After, InOneStripe, Mended;
    var stripe, segs, was := StripeOf(g, r), Segs(g, r), Mended(g, fs, lost);
    var base, exp, now := g.Base(stripe), Exp(g, stripe, fs), Exp(g, stripe, After(g, r, was));
    BeginWritesAre(g, r, olds, was);
    SegsMakeStripe(g, r, fs, was);
    PlanOfWrites(g, r, fs, now);
    FreshProgress(BeginWrites(g, stripe, r, olds).ios, rows, dead, began, exp, now);
  }

  lemma {:induction false} BeginWritesAre(g: Geo, r: Req, olds: seq<Bytes>, fs: Stripe)
    requires g.Valid() && Whole(g, fs) && ReqOk(g, StripeOf(g, r), r) && InOneStripe(g, r) && r.kind.Write?
    requires !FullWrite(g, r) && HasLens(olds, SegLens(Segs(g, r)) + [g.strip])
    requires RightBut(olds, RmwReads(g, r), g.Base(StripeOf(g, r)), Exp(g, StripeOf(g, r), fs), |olds|)
    ensures PiecesFit(Segs(g, r), r.kind.data)
    ensures var stripe := StripeOf(g, r);
            BeginWrites(g, stripe, r, olds)
            == Await(WriteWait, AllWrites(g, r, Exp(g, stripe, After(g, r, fs))[g.Parity(stripe)]))
  {
    hide Segs, SegWrites, Expected, Rmw, Splice, Planned, Touches, RightBut, RmwReads, RightPart, After, Exp;
    PlannedReq(g, r);
    OldParts(g, r, olds, fs);
    NewParity(g, r, fs, olds[..|Segs(g, r)|]);
  }

  /** The child writes of a partial write. */
  function AllWrites(g: Geo, r: Req, parity: Bytes): seq<ChildIo>
    requires g.Valid() && r.kind.Write? && PiecesFit(Segs(g, r), r.kind.data)
  {
    SegWrites(g, StripeOf(g, r), Segs(g, r), r.kind.data) + [ParityWrite(g, StripeOf(g, r), parity)]
  }

  /** The old buffers, segment by segment, and the old parity. */
  lemma {:induction false} OldParts(g: Geo, r: Req, olds: seq<Bytes>, fs: Stripe)
    requires g.Valid() && Whole(g, fs)
    requires |olds| == |Segs(g, r)| + 1
    requires RightBut(olds, RmwReads(g, r), g.Base(StripeOf(g, r)), Exp(g, StripeOf(g, r), fs), |olds|)
    ensures forall k | 0 <= k < |Segs(g, r)| ::
              RightPart(ReadIo(g, StripeOf(g, r), Segs(g, r)[k]), g.Base(StripeOf(g, r)), olds[..|Segs(g, r)|][k],
                        Exp(g, StripeOf(g, r), fs))
    ensures olds[|Segs(g, r)|] == Exp(g, StripeOf(g, r), fs)[g.Parity(StripeOf(g, r))]
  {
    hide Segs, Exp, SegReads, RightPart, StripeOf, ReadIo;
    var n, stripe := |Segs(g, r)|, StripeOf(g, r);
    forall k | 0 <= k < n
      ensures RightPart(ReadIo(g, stripe, Segs(g, r)[k]), g.Base(stripe), olds[k], Exp(g, stripe, fs))
    {
      assert RmwReads(g, r)[k] == ReadIo(g, stripe, Segs(g, r)[k]);
    }
    assert RmwReads(g, r)[n] == ParityRead(g, stripe);
    WholePart(g, stripe, olds[n], Exp(g, stripe, fs));
  }

  lemma {:induction false} WholePart(g: Geo, stripe: nat, part: Bytes, exp: seq<Bytes>)
    requires g.Valid() && RightPart(ParityRead(g, stripe), g.Base(stripe), part, exp)
    requires |exp[g.Parity(stripe)]| == g.strip
    ensures part == exp[g.Parity(stripe)]
  {
    hide Geo.Parity, Geo.Base;
    assert exp[g.Parity(stripe)][0..g.strip] == exp[g.Parity(stripe)];
  }

  lemma {:induction false} FreshProgress(ios: seq<ChildIo>, rows: seq<Bytes>, dead: Option<nat>, began: Option<nat>,
                                         exp: seq<Bytes>, now: seq<Bytes>)
    requires Matches(rows, dead, exp) && |now| == |exp|
    requires forall i | 0 <= i < |ios| :: ios[i].out.Pending? && ios[i].disk < |exp|
    ensures WriteProgress(ios, rows, dead, began, exp, now)
  {
  }

  lemma {:induction false} PlanOfWrites(g: Geo, r: Req, fs: Stripe, now: seq<Bytes>)
    requires g.Valid() && Whole(g, fs) && |now| == g.ndisks
    requires SegsMake(g, r, Exp(g, StripeOf(g, r), fs), now)
    requires |now[g.Parity(StripeOf(g, r))]| == g.strip
    ensures PiecesFit(Segs(g, r), r.kind.data)
    ensures var ios := AllWrites(g, r, now[g.Parity(StripeOf(g, r))]);
            && WritePlan(ios, g.Base(StripeOf(g, r)), Exp(g, StripeOf(g, r), fs), now) && WritesTouched(g, r, ios)
            && forall i | 0 <= i < |ios| :: ios[i].out.Pending? && ios[i].disk < g.ndisks
  {
    hide Segs, Exp, SegWrites, Splice, AllWrites, Touches, StripeOf, Whole, Geo.Base, Geo.Parity, Untouched;
    var stripe := StripeOf(g, r);
    var exp, ios := Exp(g, stripe, fs), AllWrites(g, r, now[g.Parity(stripe)]);
    forall i | 0 <= i < |ios|
      ensures ios[i].dir.Out? && ios[i].out.Pending? && Touches(g, r, ios[i].disk) && ios[i].disk < g.ndisks
      ensures g.Base(stripe) <= ios[i].lo && ios[i].lo - g.Base(stripe) + |ios[i].dir.data| <= g.strip
      ensures Splice(exp[ios[i].disk], ios[i].lo - g.Base(stripe), ios[i].dir.data) == now[ios[i].disk]
    {
      WriteAt(g, r, fs, now, i);
    }
    forall d: nat | Touches(g, r, d)
      ensures !Untouched(ios, d)
    {
      WriteOn(g, r, now[g.Parity(stripe)], d);
    }
  }

  /** Write i of a partial write, on its disk. */
  lemma {:induction false} WriteAt(g: Geo, r: Req, fs: Stripe, now: seq<Bytes>, i: nat)
    requires g.Valid() && Whole(g, fs) && |now| == g.ndisks
    requires SegsMake(g, r, Exp(g, StripeOf(g, r), fs), now)
    requires |now[g.Parity(StripeOf(g, r))]| == g.strip
    requires i < |AllWrites(g, r, now[g.Parity(StripeOf(g, r))])|
    ensures var stripe := StripeOf(g, r);
            var io, exp := AllWrites(g, r, now[g.Parity(stripe)])[i], Exp(g, stripe, fs);
            && io.dir.Out? && io.out.Pending? && Touches(g, r, io.disk) && io.disk < g.ndisks
            && g.Base(stripe) <= io.lo && io.lo - g.Base(stripe) + |io.dir.data| <= g.strip
            && Splice(exp[io.disk], io.lo - g.Base(stripe), io.dir.data) == now[io.disk]
  {
    hide Segs, Exp, SegWrites, Splice;
    var stripe := StripeOf(g, r);
    var parity := now[g.Parity(stripe)];
    if i < |Segs(g, r)| {
      assert AllWrites(g, r, parity)[i]
          == ReadIo(g, stripe, Segs(g, r)[i]).(dir := Out(Piece(Segs(g, r)[i], r.kind.data)));
    } else {
      WholeSplice(Exp(g, stripe, fs)[g.Parity(stripe)], parity);
    }
  }

  /** A disk to be updated gets one of the writes. */
  lemma {:induction false} WriteOn(g: Geo, r: Req, parity: Bytes, d: nat)
    requires g.Valid() && r.kind.Write? && PiecesFit(Segs(g, r), r.kind.data) && Touches(g, r, d)
    ensures !Untouched(AllWrites(g, r, parity), d)
  {
    hide Segs, SegWrites;
    var ios := AllWrites(g, r, parity);
    if d == g.Parity(StripeOf(g, r)) {
      TouchedBy(ios, |Segs(g, r)|);
    } else {
      var k :| 0 <= k < |Segs(g, r)| && Segs(g, r)[k].disk == d;
      assert ios[k].disk == d;
    }
  }

  lemma {:induction false} WholeSplice(was: Bytes, now: Bytes)
    requires |was| == |now|
    ensures Splice(was, 0, now) == now
  {
  }

  lemma {:induction false} RmwReadData(g: Geo, r: Req, began: Option<nat>, lost: nat, ios: seq<ChildIo>,
                                       rows: seq<Bytes>, dead: Option<nat>, fs: Stripe)
    requires g.Valid() && Whole(g, fs) && AllDone(ios) && BusyOk(g, StripeOf(g, r), r, RmwRead, ios)
    requires PhaseData(g, r, began, lost, RmwRead, ios, rows, dead, fs)
    ensures GoesOn(g, r, began, LostAfter(lost, RmwRead, ios), false, Resume(g, StripeOf(g, r), r, RmwRead, ios),
                   rows, dead, fs)
  {
    hide Segs, Exp, SegReads, RepairReads, IoOk, Failures, Datas, ReadsOk, RightPart, DistinctDisks, SamePlan,
         BeginWrites, RmwReads, SegLens, HasLens, Position, Straight, Mended;
    var stripe, plan := StripeOf(g, r), RmwReads(g, r);
    var base, exp := g.Base(stripe), Exp(g, stripe, fs);
    SameLength(ios, plan);
    RmwDataLens(g, stripe, r, ios);
    forall i | 0 <= i < |ios| && !Failed(ios[i])
      ensures RightPart(plan[i], base, Datas(ios)[i], exp)
    {
      ReadRight(ios, plan, base, exp, i);
    }
    if |Failures(ios)| == 0 {
      NoneFailed(ios);
      BeginWritesData(g, r, began, lost, Datas(ios), rows, dead, fs);
    } else if |Failures(ios)| == 1 {
      OneFailure(ios);
      RmwReadFailed(g, r, began, lost, ios, rows, dead, fs);
    }
  }

  lemma {:induction false} RmwReadFailed(g: Geo, r: Req, began: Option<nat>, lost: nat, ios: seq<ChildIo>,
                                         rows: seq<Bytes>, dead: Option<nat>, fs: Stripe)
    requires g.Valid() && Whole(g, fs) && AllDone(ios) && BusyOk(g, StripeOf(g, r), r, RmwRead, ios)
    requires PhaseData(g, r, began, lost, RmwRead, ios, rows, dead, fs)
    requires |Failures(ios)| == 1
    requires RightBut(Datas(ios), RmwReads(g, r), g.Base(StripeOf(g, r)), Exp(g, StripeOf(g, r), fs), Failures(ios)[0])
    ensures GoesOn(g, r, began, LostAfter(lost, RmwRead, ios), false, Resume(g, StripeOf(g, r), r, RmwRead, ios),
                   rows, dead, fs)
  {
    hide Segs, Exp, SegReads, RepairReads, IoOk, Failures, Datas, ReadsOk, SamePlan, RmwReads, SegLens, Position,
         RightBut, Straight;
    var stripe, k := StripeOf(g, r), Failures(ios)[0];
    OneFailure(ios);
    RmwFailedDisk(g, stripe, r, ios, k);
    SameLength(ios, RmwReads(g, r));
    SameDisk(ios, RmwReads(g, r), k);
    var segs := Segs(g, r);
    var lo := if k < |segs| then g.Base(stripe) + segs[k].off else g.Base(stripe);
    var len := if k < |segs| then segs[k].len else g.strip;
    RepairReadsFresh(ios[k].disk, lo, len, g.ndisks - 1);
    PendingReads(RepairReads(ios[k].disk, lo, len, g.ndisks - 1), g.Base(stripe), Exp(g, stripe, fs));
  }

  /** Read k of phase 1, placed within its strip. */
  lemma {:induction false} RmwReadAt(g: Geo, r: Req, k: nat)
    requires g.Valid() && InOneStripe(g, r) && k <= |Segs(g, r)|
    ensures k < |RmwReads(g, r)| == |Segs(g, r)| + 1
    ensures var io, base := RmwReads(g, r)[k], g.Base(StripeOf(g, r));
            && io.disk < g.ndisks && base <= io.lo && io.lo - base + io.len <= g.strip
            && io.len == (if k < |Segs(g, r)| then Segs(g, r)[k].len else g.strip)
            && RepairReads(io.disk, base + (io.lo - base), io.len, g.ndisks - 1)
               == if k < |Segs(g, r)| then SegRepair(g, r, k) else ParityRepair(g, r)
  {
    hide Segs, SegReads, Planned, RepairReads;
    PlannedReq(g, r);
  }

  lemma {:induction false} RmwRepairData(g: Geo, r: Req, began: Option<nat>, lost: nat, olds: seq<Bytes>, k: nat,
                                         ios: seq<ChildIo>, rows: seq<Bytes>, dead: Option<nat>, fs: Stripe)
    requires g.Valid() && Whole(g, fs) && RepairSettled(ios)
    requires BusyOk(g, StripeOf(g, r), r, RmwRepair(olds, k), ios)
    requires PhaseData(g, r, began, lost, RmwRepair(olds, k), ios, rows, dead, fs)
    ensures GoesOn(g, r, began, LostAfter(lost, RmwRepair(olds, k), ios), false,
                   Resume(g, StripeOf(g, r), r, RmwRepair(olds, k), ios), rows, dead, fs)
  {
    hide Segs, Exp, SegReads, RepairReads, IoOk, Failures, Datas, ReadsOk, RightBut, SamePlan, XorAll, BeginWrites,
         RmwReads, SegRepair, ParityRepair, SegLens, HasLens, RepairSettled, Straight, Mended,
         Planned, AllDone, BusyOk, InOneStripe, ReqOk, Matches, Whole, Geo.Base, Geo.Parity, StripeOf;
    var stripe := StripeOf(g, r);
    if |Failures(ios)| == 0 {
      var plan := RmwReads(g, r);
      RepairedLens(g, stripe, r, olds, k, ios);
      RmwReadAt(g, r, k);
      RepairedOlds(g, r, olds, k, ios, fs, lost);
      BeginWritesData(g, r, began, lost, olds[k := XorAll(Datas(ios), plan[k].len)], rows, dead, fs);
    }
  }

  /** The old buffers, one of them rebuilt: all right, and if the stripe's own parity was not, the
      rebuilt one is what it should have been. */
  lemma {:induction false} RepairedOlds(g: Geo, r: Req, olds: seq<Bytes>, k: nat, ios: seq<ChildIo>, fs: Stripe,
                                        lost: nat)
    requires g.Valid() && Whole(g, fs) && RepairSettled(ios) && |Failures(ios)| == 0 && lost > 0
    requires BusyOk(g, StripeOf(g, r), r, RmwRepair(olds, k), ios)
    requires ReadsOk(ios, g.Base(StripeOf(g, r)), Exp(g, StripeOf(g, r), fs))
    requires Straight(g, fs) || k == |Segs(g, r)|
    requires k < |RmwReads(g, r)|
    requires RightBut(olds, RmwReads(g, r), g.Base(StripeOf(g, r)), Exp(g, StripeOf(g, r), fs), k)
    ensures k < |olds| && Uniform(Datas(ios), RmwReads(g, r)[k].len)
    ensures RightBut(olds[k := XorAll(Datas(ios), RmwReads(g, r)[k].len)], RmwReads(g, r), g.Base(StripeOf(g, r)),
                     Exp(g, StripeOf(g, r), Mended(g, fs, lost)), |olds|)
  {
    hide Segs, Exp, SegReads, RepairReads, IoOk, Failures, Datas, ReadsOk, RightBut, SamePlan, XorAll, RmwReads,
         SegRepair, ParityRepair, SegLens, HasLens, RepairSettled, StripeOf, Geo.Parity, Geo.Base, Whole, Straight,
         InOneStripe, ReqOk;
    var stripe, was, plan, base := StripeOf(g, r), Mended(g, fs, lost), RmwReads(g, r), g.Base(StripeOf(g, r));
    assert Straight(g, was) by { StraightParts(g, stripe, fs); }
    RepairedLens(g, stripe, r, olds, k, ios);
    RepairOf(g, stripe, r, olds, k, ios);
    RmwReadAt(g, r, k);
    if !Straight(g, fs) {
      assert plan[k].disk == g.Parity(stripe) by { ParityReadLast(g, r); }
      OldPartsElsewhere(g, r, olds, fs, was);
      RepairReadsElsewhere(g, r, ios, fs, was);
    }
    RepairFills(g, stripe, was, plan, olds, k, plan[k].lo - base, ios);
  }

  /** A stripe whose parity is off differs from the straight one on the parity disk only. */
  lemma {:induction false} StraightParts(g: Geo, stripe: nat, fs: Stripe)
    requires g.Valid() && Whole(g, fs)
    ensures Whole(g, fs.(skew := Zeros(g.strip))) && Straight(g, fs.(skew := Zeros(g.strip)))
    ensures forall d | 0 <= d < g.ndisks && d != g.Parity(stripe) ::
              Exp(g, stripe, fs.(skew := Zeros(g.strip)))[d] == Exp(g, stripe, fs)[d]
  {
    hide Expected, XorBytes;
  }

  /** After a failed parity read the new parity is right even if the old one was wrong: from right
      old data, and the parity rebuilt from the data disks, phase 3 writes the new data and the
      parity of the new stripe. */
  lemma {:induction false} RebuiltParityData(g: Geo, r: Req, olds: seq<Bytes>, ios: seq<ChildIo>, fs: Stripe)
    requires g.Valid() && Whole(g, fs) && RepairSettled(ios) && |Failures(ios)| == 0 && !FullWrite(g, r)
    requires BusyOk(g, StripeOf(g, r), r, RmwRepair(olds, |Segs(g, r)|), ios)
    requires ReadsOk(ios, g.Base(StripeOf(g, r)), Exp(g, StripeOf(g, r), fs))
    requires RightBut(olds, RmwReads(g, r), g.Base(StripeOf(g, r)), Exp(g, StripeOf(g, r), fs), |Segs(g, r)|)
    ensures r.kind.Write? && PiecesFit(Segs(g, r), r.kind.data)
    ensures var stripe, now := StripeOf(g, r), Stripe(After(g, r, fs).bytes, Zeros(g.strip));
            Resume(g, stripe, r, RmwRepair(olds, |Segs(g, r)|), ios)
            == Await(WriteWait, AllWrites(g, r, Exp(g, stripe, now)[g.Parity(stripe)]))
  {
    hide Segs, Exp, SegReads, RepairReads, IoOk, Failures, Datas, ReadsOk, RightBut, SamePlan, XorAll, BeginWrites,
         RmwReads, SegRepair, ParityRepair, SegLens, HasLens, RepairSettled, Expected, AllWrites, PiecesFit, FullWrite,
         StripeOf, Geo.Parity, Geo.Base, Whole, Straight, InOneStripe, ValidReq;
    var stripe, k := StripeOf(g, r), |Segs(g, r)|;
    RepairedLens(g, stripe, r, olds, k, ios);
    ParityReadLast(g, r);
    RmwReadAt(g, r, k);
    RepairedOlds(g, r, olds, k, ios, fs, 1);
    BeginWritesAre(g, r, olds[k := XorAll(Datas(ios), RmwReads(g, r)[k].len)], Mended(g, fs, 1));
    AfterStraight(g, r, fs);
  }

  lemma {:induction false} ParityReadLast(g: Geo, r: Req)
    requires g.Valid()
    ensures |RmwReads(g, r)| == |Segs(g, r)| + 1
    ensures RmwReads(g, r)[|Segs(g, r)|].disk == g.Parity(StripeOf(g, r))
  {
  }

  lemma {:induction false} AfterStraight(g: Geo, r: Req, fs: Stripe)
    requires g.Valid() && ValidReq(g, r) && InOneStripe(g, r) && r.kind.Write? && Whole(g, fs)
    ensures After(g, r, fs.(skew := Zeros(g.strip))) == Stripe(After(g, r, fs).bytes, Zeros(g.strip))
  {
    hide Splice, StripeOf, StartOf, InOneStripe, ValidReq;
    AfterWrite(g, r, fs);
    AfterWrite(g, r, fs.(skew := Zeros(g.strip)));
  }

  /** Old data is the same with any parity. */
  lemma {:induction false} OldPartsElsewhere(g: Geo, r: Req, olds: seq<Bytes>, fs: Stripe, was: Stripe)
    requires g.Valid() && InOneStripe(g, r) && Whole(g, fs) && was == fs.(skew := Zeros(g.strip)) && Whole(g, was)
    requires RightBut(olds, RmwReads(g, r), g.Base(StripeOf(g, r)), Exp(g, StripeOf(g, r), fs), |Segs(g, r)|)
    ensures RightBut(olds, RmwReads(g, r), g.Base(StripeOf(g, r)), Exp(g, StripeOf(g, r), was), |Segs(g, r)|)
  {
    hide Segs, Exp, SegReads, Planned, Whole;
    PlannedReq(g, r);
    StraightParts(g, StripeOf(g, r), fs);
    forall i | 0 <= i < |olds| && i != |Segs(g, r)|
      ensures RightPart(RmwReads(g, r)[i], g.Base(StripeOf(g, r)), olds[i], Exp(g, StripeOf(g, r), was))
    {
      assert RmwReads(g, r)[i].disk == Segs(g, r)[i].disk != g.Parity(StripeOf(g, r));
      assert RightPart(RmwReads(g, r)[i], g.Base(StripeOf(g, r)), olds[i], Exp(g, StripeOf(g, r), fs));
    }
  }

  /** So is what the reads that rebuild parity bring. */
  lemma {:induction false} RepairReadsElsewhere(g: Geo, r: Req, ios: seq<ChildIo>, fs: Stripe, was: Stripe)
    requires g.Valid() && Whole(g, fs) && was == fs.(skew := Zeros(g.strip)) && Whole(g, was)
    requires SamePlan(ios, ParityRepair(g, r))
    requires ReadsOk(ios, g.Base(StripeOf(g, r)), Exp(g, StripeOf(g, r), fs))
    ensures ReadsOk(ios, g.Base(StripeOf(g, r)), Exp(g, StripeOf(g, r), was))
  {
    hide Exp, Whole, RepairReads;
    var stripe := StripeOf(g, r);
    StraightParts(g, stripe, fs);
    forall i | 0 <= i < |ios|
      ensures ReadOk(ios[i], g.Base(stripe), Exp(g, stripe, was))
    {
      assert ios[i].(out := Pending) == ParityRepair(g, r)[i];
      assert ios[i].disk != g.Parity(stripe);
      assert ReadOk(ios[i], g.Base(stripe), Exp(g, stripe, fs));
    }
  }

  /** All writes done: the living disks hold the new stripe, and the status is right. */
  lemma {:induction false} WriteWaitData(g: Geo, r: Req, began: Option<nat>, lost: nat, ios: seq<ChildIo>,
                                         rows: seq<Bytes>, dead: Option<nat>, fs: Stripe)
    requires g.Valid() && Whole(g, fs) && AllDone(ios) && BusyOk(g, StripeOf(g, r), r, WriteWait, ios)
    requires PhaseData(g, r, began, lost, WriteWait, ios, rows, dead, fs)
    ensures GoesOn(g, r, began, LostAfter(lost, WriteWait, ios), true, Resume(g, StripeOf(g, r), r, WriteWait, ios),
                   rows, dead, fs)
  {
    hide Segs, Exp, BusyOk, After, AllDone, WritePlan, WriteProgress, WritesTouched, Failures, Touches, Failed, Mended;
    var exp, now := Exp(g, StripeOf(g, r), fs), Exp(g, StripeOf(g, r), After(g, r, Mended(g, fs, lost)));
    BusyWriteIs(g, r, ios);
    WritesLanded(ios, g.Base(StripeOf(g, r)), rows, dead, began, exp, now);
    WriteStatus(g, r, ios, rows, dead, began, exp, now);
  }

  lemma {:induction false} BusyWriteIs(g: Geo, r: Req, ios: seq<ChildIo>)
    requires g.Valid() && BusyOk(g, StripeOf(g, r), r, WriteWait, ios)
    ensures r.kind.Write? && InOneStripe(g, r)
  {
    hide Segs, SegLens;
  }

  lemma {:induction false} WritesLanded(ios: seq<ChildIo>, base: nat, rows: seq<Bytes>, dead: Option<nat>,
                                        began: Option<nat>, exp: seq<Bytes>, now: seq<Bytes>)
    requires AllDone(ios) && WritePlan(ios, base, exp, now) && WriteProgress(ios, rows, dead, began, exp, now)
    ensures Matches(rows, dead, now)
  {
  }

  lemma {:induction false} WriteStatus(g: Geo, r: Req, ios: seq<ChildIo>, rows: seq<Bytes>, dead: Option<nat>,
                                       began: Option<nat>, exp: seq<Bytes>, now: seq<Bytes>)
    requires g.Valid() && AllDone(ios) && WriteProgress(ios, rows, dead, began, exp, now) && WritesTouched(g, r, ios)
    ensures |Failures(ios)| == 0 && began.Some? ==> !Touches(g, r, began.value)
    ensures |Failures(ios)| > 0 ==> dead.Some? && Touches(g, r, dead.value)
  {
    hide Touches;
    if |Failures(ios)| > 0 {
      assert Failed(ios[Failures(ios)[0]]);
    } else if began.Some? {
      assert forall i | 0 <= i < |ios| :: !Failed(ios[i]);
      assert Untouched(ios, began.value);
    }
  }

  /** Going on with a request: it stays on course or ends with the right answer. */
  lemma {:induction false} ResumeData(g: Geo, r: Req, began: Option<nat>, lost: nat, phase: Phase,
                                      ios: seq<ChildIo>, rows: seq<Bytes>, dead: Option<nat>, fs: Stripe)
    requires g.Valid() && Whole(g, fs) && BusyOk(g, StripeOf(g, r), r, phase, ios)
    requires if phase.ReadRepair? || phase.RmwRepair? then RepairSettled(ios) else AllDone(ios)
    requires PhaseData(g, r, began, lost, phase, ios, rows, dead, fs)
    ensures GoesOn(g, r, began, LostAfter(lost, phase, ios), phase.WriteWait?,
                   Resume(g, StripeOf(g, r), r, phase, ios), rows, dead, fs)
  {
    hide PhaseData, BusyOk, GoesOn, Resume, RepairSettled, AllDone, LostAfter;
    match phase
    case ReadWait => ReadWaitData(g, r, began, lost, ios, rows, dead, fs);
    case ReadRepair(parts, k) => ReadRepairData(g, r, began, lost, parts, k, ios, rows, dead, fs);
    case RmwRead => RmwReadData(g, r, began, lost, ios, rows, dead, fs);
    case RmwRepair(olds, k) => RmwRepairData(g, r, began, lost, olds, k, ios, rows, dead, fs);
    case WriteWait => WriteWaitData(g, r, began, lost, ios, rows, dead, fs);
  }

  // One child I/O.

  lemma {:induction false} ReadDone(ios: seq<ChildIo>, base: nat, rows: seq<Bytes>, dead: Option<nat>,
                                    exp: seq<Bytes>, i: nat, ok: bool, data: Bytes)
    requires Matches(rows, dead, exp) && ReadsOk(ios, base, exp) && i < |ios|
    requires ios[i].disk < |rows| && base <= ios[i].lo && ios[i].lo - base + ios[i].len <= |rows[ios[i].disk]|
    requires ok ==> dead != Some(ios[i].disk)
    requires ok ==> data == rows[ios[i].disk][ios[i].lo - base..ios[i].lo - base + ios[i].len]
    ensures ReadsOk(ios[i := ios[i].(out := Done(ok, data))], base, exp)
  {
  }

  /** A read happens: if it succeeds it brings the row's bytes, and it fails on a dead disk. The
      first reads of a request may fail on any disk of a straight stripe, and on the parity disk of
      any; those for rebuilding anywhere. */
  lemma {:induction false} ReadEffectData(g: Geo, r: Req, began: Option<nat>, lost: nat, phase: Phase,
                                          ios: seq<ChildIo>, rows: seq<Bytes>, dead: Option<nat>, fs: Stripe, i: nat,
                                          ok: bool, data: Bytes)
    requires g.Valid() && Whole(g, fs) && !phase.WriteWait? && i < |ios|
    requires PhaseData(g, r, began, lost, phase, ios, rows, dead, fs)
    requires var io, base := ios[i], g.Base(StripeOf(g, r));
             && io.disk < |rows| && base <= io.lo && io.lo - base + io.len <= |rows[io.disk]|
             && (ok ==> dead != Some(io.disk))
             && (!ok && (phase.ReadWait? || phase.RmwRead?) ==> Straight(g, fs) || io.disk == g.Parity(StripeOf(g, r)))
             && (ok ==> data == rows[io.disk][io.lo - base..io.lo - base + io.len])
    ensures PhaseData(g, r, began, lost, phase, ios[i := ios[i].(out := Done(ok, data))], rows, dead, fs)
  {
    hide Segs, Exp, ReadsOk, RightBut, Matches, Straight;
    ReadDone(ios, g.Base(StripeOf(g, r)), rows, dead, Exp(g, StripeOf(g, r), fs), i, ok, data);
  }

  /** Reporting an outcome changes no plan. */
  lemma {:induction false} WritePlanKept(ios: seq<ChildIo>, base: nat, exp: seq<Bytes>, now: seq<Bytes>, i: nat,
                                         o: Outcome)
    requires WritePlan(ios, base, exp, now) && i < |ios|
    ensures WritePlan(ios[i := ios[i].(out := o)], base, exp, now)
  {
    hide Splice, Untouched;
    var done := ios[i := ios[i].(out := o)];
    forall d | 0 <= d < |exp| && Untouched(done, d)
      ensures now[d] == exp[d]
    {
      SameDisks(ios, done, d);
    }
  }

  /** A write happens: on a living disk it brings the row to its new contents; whatever it
      does to a dead one does not matter. */
  lemma {:induction false} WriteDone(ios: seq<ChildIo>, base: nat, rows: seq<Bytes>, dead: Option<nat>,
                                     began: Option<nat>, exp: seq<Bytes>, now: seq<Bytes>, i: nat, ok: bool,
                                     data: Bytes, row: Bytes)
    requires WriteProgress(ios, rows, dead, began, exp, now) && DistinctDisks(ios)
    requires i < |ios| && ios[i].out.Pending? && (began.Some? ==> dead == began)
    requires ok <==> dead != Some(ios[i].disk)
    requires ok ==> row == now[ios[i].disk]
    ensures WriteProgress(ios[i := ios[i].(out := Done(ok, data))], rows[ios[i].disk := row], dead, began, exp, now)
  {
    hide Untouched;
    var done := ios[i := ios[i].(out := Done(ok, data))];
    forall d | 0 <= d < |exp|
      ensures Untouched(done, d) <==> Untouched(ios, d)
    {
      SameDisks(ios, done, d);
    }
    assert !Untouched(ios, ios[i].disk) by { TouchedBy(ios, i); }
  }

  lemma {:induction false} TouchedBy(ios: seq<ChildIo>, i: nat)
    requires i < |ios|
    ensures !Untouched(ios, ios[i].disk)
  {
  }

  lemma {:induction false} SameDisks(ios: seq<ChildIo>, done: seq<ChildIo>, d: nat)
    requires |ios| == |done| && forall i | 0 <= i < |ios| :: ios[i].disk == done[i].disk
    ensures Untouched(done, d) <==> Untouched(ios, d)
  {
  }

  /** A planned write not done yet finds the old row, and makes it the new one. */
  lemma {:induction false} RowWritten(ios: seq<ChildIo>, base: nat, rows: seq<Bytes>, dead: Option<nat>,
                                      began: Option<nat>, exp: seq<Bytes>, now: seq<Bytes>, i: nat)
    requires WritePlan(ios, base, exp, now) && WriteProgress(ios, rows, dead, began, exp, now)
    requires i < |ios| && ios[i].out.Pending? && dead != Some(ios[i].disk)
    ensures ios[i].disk < |rows| && ios[i].dir.Out? && base <= ios[i].lo
    ensures ios[i].lo - base + |ios[i].dir.data| <= |rows[ios[i].disk]|
    ensures Splice(rows[ios[i].disk], ios[i].lo - base, ios[i].dir.data) == now[ios[i].disk]
  {
  }

  lemma {:induction false} WriteEffectData(g: Geo, r: Req, began: Option<nat>, lost: nat, ios: seq<ChildIo>,
                                           rows: seq<Bytes>, dead: Option<nat>, fs: Stripe, i: nat, ok: bool,
                                           data: Bytes, row: Bytes)
    requires g.Valid() && Whole(g, fs) && i < |ios| && ios[i].out.Pending? && DistinctDisks(ios)
    requires PhaseData(g, r, began, lost, WriteWait, ios, rows, dead, fs)
    requires var io, base := ios[i], g.Base(StripeOf(g, r));
             && io.disk < |rows| && io.dir.Out? && base <= io.lo
             && (ok <==> dead != Some(io.disk))
             && (ok ==> io.lo - base + |io.dir.data| <= |rows[io.disk]|
                        && row == Splice(rows[io.disk], io.lo - base, io.dir.data))
    ensures PhaseData(g, r, began, lost, WriteWait, ios[i := ios[i].(out := Done(ok, data))], rows[ios[i].disk := row],
            dead, fs)
  {
    hide Segs, Exp, WriteProgress, Splice, DistinctDisks, Touches, After, WritePlan, Mended;
    var exp, now := Exp(g, StripeOf(g, r), fs), Exp(g, StripeOf(g, r), After(g, r, Mended(g, fs, lost)));
    WritePlanKept(ios, g.Base(StripeOf(g, r)), exp, now, i, Done(ok, data));
    if ok { RowWritten(ios, g.Base(StripeOf(g, r)), rows, dead, began, exp, now, i); }
    WriteDone(ios, g.Base(StripeOf(g, r)), rows, dead, began, exp, now, i, ok, data, row);
    var done := ios[i := ios[i].(out := Done(ok, data))];
    forall d: nat | Touches(g, r, d)
      ensures !Untouched(done, d)
    {
      SameDisks(ios, done, d);
    }
  }

  // The start of a request.

  lemma {:induction false} FullTouches(g: Geo, r: Req, d: nat)
    requires g.Valid() && StartOf(g, r) == 0 && r.len == g.StripeLen() && r.kind.Write? && |r.kind.data| == r.len
    ensures Touches(g, r, d) <==> d < g.ndisks
  {
    hide Segs, Pieces, PiecesFit, StripeOf, StartOf;
    FullPlan(g, r, r.kind.data);
    var p := g.Parity(StripeOf(g, r));
    if d < g.ndisks && d != p {
      assert Segs(g, r)[DataStrip(d, p)].disk == d;
    }
  }

  /** The writes of a whole stripe make the stripe of the request's own bytes. */
  lemma {:induction false} FullWritesPlan(g: Geo, r: Req, fs: Stripe, ios: seq<ChildIo>)
    requires g.Valid() && ReqOk(g, StripeOf(g, r), r) && Whole(g, fs)
    requires r.kind.Write? && StartOf(g, r) == 0 && r.len == g.StripeLen()
    requires BeginFull(g, StripeOf(g, r), r, r.kind.data) == Await(WriteWait, ios)
    ensures WritePlan(ios, g.Base(StripeOf(g, r)), Exp(g, StripeOf(g, r), fs), Exp(g, StripeOf(g, r), After(g, r, fs)))
    ensures |ios| == g.ndisks && forall i | 0 <= i < |ios| :: ios[i].out.Pending? && ios[i].disk == i
  {
    hide Segs, Exp, Pieces, XorAll, Splice, Planned, SegWrites, BeginFull, After, StripeOf, StartOf, Geo.Base,
         Geo.StripeLen, Whole, ReqOk, Untouched;
    var stripe, d := StripeOf(g, r), r.kind.data;
    var exp, now := Exp(g, stripe, fs), Exp(g, stripe, After(g, r, fs));
    FullWriteAt(g, r, fs, ios, 0);
    forall i | 0 <= i < g.ndisks
      ensures i < |ios| && ios[i].out.Pending? && ios[i].disk == i && ios[i].dir.Out?
      ensures ios[i].lo == g.Base(stripe) && ios[i].dir.data == now[i]
    {
      FullWriteAt(g, r, fs, ios, i);
    }
    forall i | 0 <= i < g.ndisks
      ensures Splice(exp[i], 0, now[i]) == now[i]
    {
      WholeSplice(exp[i], now[i]);
    }
    forall x | 0 <= x < g.ndisks
      ensures !Untouched(ios, x)
    {
      TouchedBy(ios, x);
    }
  }

  /** A whole-stripe write leaves nothing of what was there before. */
  lemma {:induction false} AfterFull(g: Geo, r: Req, fs: Stripe)
    requires g.Valid() && ValidReq(g, r) && FullWrite(g, r) && Whole(g, fs)
    ensures After(g, r, fs) == Stripe(r.kind.data, Zeros(g.strip)) && |r.kind.data| == g.StripeLen()
  {
  }

  lemma {:induction false} FullWriteAt(g: Geo, r: Req, fs: Stripe, ios: seq<ChildIo>, i: nat)
    requires g.Valid() && ReqOk(g, StripeOf(g, r), r) && Whole(g, fs)
    requires r.kind.Write? && StartOf(g, r) == 0 && r.len == g.StripeLen() && i < g.ndisks
    requires BeginFull(g, StripeOf(g, r), r, r.kind.data) == Await(WriteWait, ios)
    ensures |ios| == g.ndisks && ios[i].out.Pending? && ios[i].disk == i && ios[i].dir.Out?
    ensures ios[i].lo == g.Base(StripeOf(g, r))
    ensures ios[i].dir.data == Exp(g, StripeOf(g, r), After(g, r, fs))[i]
  {
    hide Segs, Exp, Expected, Pieces, XorAll, Planned, FullWrites, SegWrites, Zeros, After, StripeOf, StartOf,
         Geo.Parity, Geo.Base;
    var p, stripe, d, segs := g.Parity(StripeOf(g, r)), StripeOf(g, r), r.kind.data, Segs(g, r);
    AfterFull(g, r, fs);
    ExpIs(g, stripe, After(g, r, fs));
    FullPieces(g, r);
    if i != p {
      assert ios[i] == SegWrites(g, stripe, segs, d)[DataStrip(i, p)].(disk := i);
      assert DataDisk(DataStrip(i, p), p) == i;
    }
  }

  /** What the writes of a whole stripe carry. */
  lemma {:induction false} FullPieces(g: Geo, r: Req)
    requires g.Valid() && ValidReq(g, r) && FullWrite(g, r)
    ensures var segs, d, p := Segs(g, r), r.kind.data, g.Parity(StripeOf(g, r));
            && |d| == (g.ndisks - 1) * g.strip && |segs| == g.ndisks - 1 && PiecesFit(segs, d)
            && Uniform(Pieces(segs, d), g.strip)
            && XorAll(Pieces(segs, d), g.strip) == Expected(d, g.strip, g.ndisks, p)[p]
            && forall k | 0 <= k < |segs| ::
                 segs[k].off == 0 && Piece(segs[k], d) == Expected(d, g.strip, g.ndisks, p)[DataDisk(k, p)]
  {
    hide Segs, Expected, Pieces, XorAll, Tiles;
    PlannedReq(g, r);
    FullPlan(g, r, r.kind.data);
    FullParityCorrect(Segs(g, r), g.strip, g.ndisks, g.Parity(StripeOf(g, r)), r.kind.data);
  }

  lemma {:induction false} BeginFullData(g: Geo, r: Req, rows: seq<Bytes>, dead: Option<nat>, fs: Stripe)
    requires g.Valid() && Whole(g, fs) && ReqOk(g, StripeOf(g, r), r)
    requires r.kind.Write? && StartOf(g, r) == 0 && r.len == g.StripeLen()
    requires Matches(rows, dead, Exp(g, StripeOf(g, r), fs)) && Safe(g, StripeOf(g, r), dead, fs)
    ensures GoesOn(g, r, dead, 0, false, BeginFull(g, StripeOf(g, r), r, r.kind.data), rows, dead, fs)
  {
    hide Segs, Exp, BeginFull, BusyOk, WritePlan, Touches, After;
    var o := BeginFull(g, StripeOf(g, r), r, r.kind.data);
    BeginFullOk(g, StripeOf(g, r), r);
    FullWritesPlan(g, r, fs, o.ios);
    FreshProgress(o.ios, rows, dead, dead, Exp(g, StripeOf(g, r), fs), Exp(g, StripeOf(g, r), After(g, r, fs)));
    forall d: nat
      ensures Touches(g, r, d) <==> d < g.ndisks
    {
      FullTouches(g, r, d);
    }
    forall d: nat | d < g.ndisks
      ensures !Untouched(o.ios, d)
    {
      assert o.ios[d].disk == d;
    }
  }

  /** Taking a request off its queue, from matching rows. */
  lemma {:induction false} BeginData(g: Geo, r: Req, rows: seq<Bytes>, dead: Option<nat>, fs: Stripe)
    requires g.Valid() && Whole(g, fs) && ReqOk(g, StripeOf(g, r), r)
    requires Matches(rows, dead, Exp(g, StripeOf(g, r), fs)) && Safe(g, StripeOf(g, r), dead, fs)
    ensures GoesOn(g, r, dead, 0, false, Begin(g, StripeOf(g, r), r), rows, dead, fs)
  {
    if InOneStripe(g, r) && r.kind.Write? && StartOf(g, r) == 0 && r.len == g.StripeLen() {
      hide GoesOn, BeginFull, Matches;
      BeginFullData(g, r, rows, dead, fs);
    } else {
      hide Segs, Exp, SegReads, Matches, ReadsOk, BeginFull;
      var stripe := StripeOf(g, r);
      SegReadsFresh(g, stripe, Segs(g, r));
      PendingReads(SegReads(g, stripe, Segs(g, r)), g.Base(stripe), Exp(g, stripe, fs));
      PendingReads(RmwReads(g, r), g.Base(stripe), Exp(g, stripe, fs));
    }
  }

  /** A disk may die at any moment, if none is dead yet and the data can do without it. */
  lemma {:induction false} DieData(g: Geo, r: Req, began: Option<nat>, lost: nat, phase: Phase,
                                   ios: seq<ChildIo>, rows: seq<Bytes>, dead: nat, fs: Stripe)
    requires g.Valid() && Whole(g, fs) && PhaseData(g, r, began, lost, phase, ios, rows, None, fs)
    requires Safe(g, StripeOf(g, r), Some(dead), fs)
    ensures PhaseData(g, r, began, lost, phase, ios, rows, Some(dead), fs)
  {
    hide Segs, Exp, After, Splice, Touches, RightBut;
  }
}
