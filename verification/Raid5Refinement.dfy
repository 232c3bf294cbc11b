/** Stripe by stripe, requests act one after the other on one flat sequence of bytes, whatever
    the interleaving: with at most one disk dying, at any moment, and with reads failing. */
module Raid5Refinement {
  import opened XorAlgebra
  import opened Geometry
  import opened Parity
  import opened StripeQueues
  import opened Raid5Machine
  import opened Raid5Shape
  import opened Raid5Order
  import opened Raid5Data

  // The flat array.

  ghost predicate FlatOk(g: Geo, flat: Bytes)
    requires g.Valid()
  {
    |flat| == g.Capacity()
  }

  /** The bytes of one stripe. */
  function StripeBytes(g: Geo, flat: Bytes, stripe: nat): (fs: Bytes)
    requires g.Valid() && FlatOk(g, flat) && stripe < g.Stripes()
    ensures |fs| == g.StripeLen()
  {
    StripeRange(g, stripe);
    flat[g.First(stripe)..g.First(stripe) + g.StripeLen()]
  }

  /** One request on a flat array: a write changes its own range, if that is within one stripe. */
  function Apply(g: Geo, flat: Bytes, r: Req): (now: Bytes)
    requires g.Valid() && FlatOk(g, flat)
    ensures FlatOk(g, now)
  {
    if r.kind.Write? && ValidReq(g, r) && Undivided(g, r) then Splice(flat, r.off, r.kind.data) else flat
  }

  function Replay(g: Geo, flat: Bytes, rs: seq<Req>): (now: Bytes)
    requires g.Valid() && FlatOk(g, flat)
    ensures FlatOk(g, now)
  {
    if |rs| == 0 then flat else Apply(g, Replay(g, flat, rs[..|rs| - 1]), rs[|rs| - 1])
  }

  lemma {:induction false} ReplayPush(g: Geo, flat: Bytes, rs: seq<Req>, r: Req)
    requires g.Valid() && FlatOk(g, flat)
    ensures Replay(g, flat, rs + [r]) == Apply(g, Replay(g, flat, rs), r)
  {
  }

  /** A request changes no stripe but its own, and its own as computed stripe by stripe. */
  lemma {:induction false} ApplyStripe(g: Geo, flat: Bytes, r: Req, stripe: nat, skew: Bytes)
    requires g.Valid() && FlatOk(g, flat) && ValidReq(g, r) && stripe < g.Stripes() && |skew| == g.strip
    ensures StripeBytes(g, Apply(g, flat, r), stripe)
            == if StripeOf(g, r) == stripe then After(g, r, Stripe(StripeBytes(g, flat, stripe), skew)).bytes
               else StripeBytes(g, flat, stripe)
  {
    InOneStripeIff(g, r);
    if r.kind.Write? && InOneStripe(g, r) {
      hide StripeBytes, Apply, After, StripeOf, InOneStripe, Undivided, ValidReq;
      if StripeOf(g, r) == stripe { WriteOwnStripe(g, flat, r, skew); } else { WriteOtherStripe(g, flat, r, stripe); }
    } else {
      CrossStripe(g, r, Stripe(StripeBytes(g, flat, stripe), skew));
    }
  }

  lemma {:induction false} WriteOwnStripe(g: Geo, flat: Bytes, r: Req, skew: Bytes)
    requires g.Valid() && FlatOk(g, flat) && ValidReq(g, r) && r.kind.Write? && InOneStripe(g, r)
    requires StripeOf(g, r) < g.Stripes() && |skew| == g.strip
    ensures StripeBytes(g, Apply(g, flat, r), StripeOf(g, r))
            == After(g, r, Stripe(StripeBytes(g, flat, StripeOf(g, r)), skew)).bytes
  {
    hide After, Splice, StripeOf, StartOf, InOneStripe, Undivided, ValidReq, FullWrite, Geo.StripeLen, Geo.Capacity,
         Geo.Stripes, Geo.First;
    InOneStripeIff(g, r);
    StripeRange(g, StripeOf(g, r));
    RequestPlace(g, r);
    AfterWrite(g, r, Stripe(StripeBytes(g, flat, StripeOf(g, r)), skew));
    SpliceWithin(flat, g.First(StripeOf(g, r)), g.StripeLen(), StartOf(g, r), r.kind.data);
  }

  lemma {:induction false} WriteOtherStripe(g: Geo, flat: Bytes, r: Req, stripe: nat)
    requires g.Valid() && FlatOk(g, flat) && ValidReq(g, r) && r.kind.Write? && InOneStripe(g, r)
    requires stripe < g.Stripes() && StripeOf(g, r) != stripe
    ensures StripeBytes(g, Apply(g, flat, r), stripe) == StripeBytes(g, flat, stripe)
  {
    hide Splice, StripeOf, InOneStripe, Undivided, ValidReq, Geo.StripeLen, Geo.Capacity, Geo.Stripes, Geo.First;
    InOneStripeIff(g, r);
    StripeRange(g, stripe);
    RequestApart(g, r, stripe);
    WriteFits(g, r);
    PatchOutside(flat, r.off, r.kind.data, g.First(stripe), g.StripeLen());
  }

  lemma {:induction false} RequestApart(g: Geo, r: Req, stripe: nat)
    requires g.Valid() && InOneStripe(g, r) && StripeOf(g, r) != stripe
    ensures r.off + r.len <= g.First(stripe) || g.First(stripe) + g.StripeLen() <= r.off
  {
    hide StripeOf, StartOf, Geo.StripeLen, Geo.First;
    RequestPlace(g, r);
    StripesApart(g, StripeOf(g, r), stripe);
  }

  lemma {:induction false} WriteFits(g: Geo, r: Req)
    requires g.Valid() && ValidReq(g, r) && r.kind.Write?
    ensures r.off + |r.kind.data| <= g.Capacity() && |r.kind.data| == r.len
  {
  }

  lemma {:induction false} RequestPlace(g: Geo, r: Req)
    requires g.Valid()
    ensures r.off == g.First(StripeOf(g, r)) + StartOf(g, r)
    ensures StartOf(g, r) < g.StripeLen()
  {
  }

  lemma {:induction false} CrossStripe(g: Geo, r: Req, fs: Stripe)
    requires g.Valid() && ValidReq(g, r) && Whole(g, fs) && !(r.kind.Write? && InOneStripe(g, r))
    ensures After(g, r, fs) == fs
  {
  }

  lemma {:induction false} StripesApart(g: Geo, a: nat, b: nat)
    requires g.Valid() && a != b
    ensures g.First(a) + g.StripeLen() <= g.First(b) || g.First(b) + g.StripeLen() <= g.First(a)
  {
    if a < b { MulGap(a, b, g.StripeLen()); } else { MulGap(b, a, g.StripeLen()); }
  }

  lemma {:induction false} SpliceWithin(m: Bytes, base: nat, len: nat, at: nat, d: Bytes)
    requires base + len <= |m| && at + |d| <= len
    ensures Splice(m, base + at, d)[base..base + len] == Splice(m[base..base + len], at, d)
  {
  }

  lemma {:induction false} AfterSkew(g: Geo, r: Req, fs: Stripe)
    requires g.Valid() && ValidReq(g, r) && Whole(g, fs)
    ensures After(g, r, fs).skew == if FullWrite(g, r) then Zeros(g.strip) else fs.skew
    ensures Straight(g, fs) ==> Straight(g, After(g, r, fs))
  {
  }

  /** What stripe x holds after the requests completed so far, if it held `was` to begin with:
      those that got to their write phase have changed it, one after the other. */
  function Content(g: Geo, was: Stripe, log: seq<Completion>, x: nat): (fs: Stripe)
    requires g.Valid() && Whole(g, was)
    ensures Whole(g, fs)
  {
    if |log| == 0 then was
    else
      var c, before := log[|log| - 1], Content(g, was, log[..|log| - 1], x);
      if StripeOf(g, c.req) == x && c.wrote.Some? then After(g, c.req, Mended(g, before, c.lost)) else before
  }

  lemma {:induction false} ContentPush(g: Geo, was: Stripe, log: seq<Completion>, c: Completion, x: nat)
    requires g.Valid() && Whole(g, was)
    ensures Content(g, was, log + [c], x)
            == var before := Content(g, was, log, x);
               if StripeOf(g, c.req) == x && c.wrote.Some? then After(g, c.req, Mended(g, before, c.lost)) else before
  {
  }

  // Rows of a stripe on the disks.

  ghost predicate DisksOk(g: Geo, disks: seq<Bytes>) {
    |disks| == g.ndisks && forall d | 0 <= d < g.ndisks :: |disks[d]| == g.child
  }

  function Cut(disks: seq<Bytes>, base: nat, len: nat): (r: seq<Bytes>)
    requires forall d | 0 <= d < |disks| :: base + len <= |disks[d]|
    ensures |r| == |disks| && forall d | 0 <= d < |disks| :: r[d] == disks[d][base..base + len]
  {
    if |disks| == 0 then []
    else Cut(disks[..|disks| - 1], base, len) + [disks[|disks| - 1][base..base + len]]
  }

  function Rows(g: Geo, disks: seq<Bytes>, stripe: nat): (r: seq<Bytes>)
    requires g.Valid() && DisksOk(g, disks) && stripe < g.Stripes()
    ensures |r| == g.ndisks && forall d | 0 <= d < g.ndisks :: |r[d]| == g.strip
  {
    StripeInside(g, stripe);
    Cut(disks, g.Base(stripe), g.strip)
  }

  lemma {:induction false} RowAt(g: Geo, disks: seq<Bytes>, stripe: nat, d: nat)
    requires g.Valid() && DisksOk(g, disks) && stripe < g.Stripes() && d < g.ndisks
    ensures g.Base(stripe) + g.strip <= g.child
    ensures Rows(g, disks, stripe)[d] == disks[d][g.Base(stripe)..g.Base(stripe) + g.strip]
  {
    StripeInside(g, stripe);
  }

  /** A write inside a stripe's rows, seen from any stripe. */
  lemma {:induction false} RowsWritten(g: Geo, disks: seq<Bytes>, stripe: nat, disk: nat, lo: nat, data: Bytes, x: nat)
    requires g.Valid() && DisksOk(g, disks) && stripe < g.Stripes() && x < g.Stripes() && disk < g.ndisks
    requires g.Base(stripe) <= lo && lo + |data| <= g.Base(stripe) + g.strip <= g.child
    ensures var now := disks[disk := Splice(disks[disk], lo, data)];
            && DisksOk(g, now)
            && Rows(g, now, x)
               == if x == stripe then
                    Rows(g, disks, x)[disk := Splice(Rows(g, disks, x)[disk], lo - g.Base(stripe), data)]
                  else Rows(g, disks, x)
  {
    hide Splice, Rows;
    var now, base := disks[disk := Splice(disks[disk], lo, data)], g.Base(x);
    RowAt(g, disks, x, disk);
    RowAt(g, now, x, disk);
    if x == stripe {
      SpliceWithin(disks[disk], base, g.strip, lo - base, data);
    } else {
      BasesApart(g, stripe, x);
      PatchOutside(disks[disk], lo, data, base, g.strip);
    }
    forall d | 0 <= d < g.ndisks && d != disk
      ensures Rows(g, now, x)[d] == Rows(g, disks, x)[d]
    {
      RowAt(g, disks, x, d);
      RowAt(g, now, x, d);
    }
  }

  lemma {:induction false} BasesApart(g: Geo, a: nat, b: nat)
    requires g.Valid() && a != b
    ensures g.Base(a) + g.strip <= g.Base(b) || g.Base(b) + g.strip <= g.Base(a)
  {
    if a < b { MulGap(a, b, g.strip); } else { MulGap(b, a, g.strip); }
  }

  // The data invariant.

  predicate BusyOn(s: State, stripe: nat, t: nat) {
    t < |s.tasks| && s.tasks[t].stripe == stripe && s.tasks[t].pc.Busy?
  }

  ghost predicate Resting(s: State, stripe: nat) {
    forall t: nat :: !BusyOn(s, stripe, t)
  }

  /** The request task t has in hand is on course. */
  ghost predicate BusyRight(g: Geo, was: Stripe, s: State, x: nat, t: nat)
    requires g.Valid() && Whole(g, was) && DisksOk(g, s.disks) && x < g.Stripes() && BusyOn(s, x, t)
  {
    var pc := s.tasks[t].pc;
    PhaseData(g, pc.req, pc.began, pc.lost, pc.phase, pc.ios, Rows(g, s.disks, x), s.dead, Content(g, was, s.log, x))
  }

  /** Every living disk holds what it should of the stripe. */
  ghost predicate StripeMatches(g: Geo, was: Stripe, s: State, x: nat)
    requires g.Valid() && Whole(g, was) && DisksOk(g, s.disks) && x < g.Stripes()
  {
    Matches(Rows(g, s.disks, x), s.dead, Exp(g, x, Content(g, was, s.log, x)))
  }

  ghost predicate StripeRight(g: Geo, was: Stripe, s: State, x: nat)
    requires g.Valid() && Whole(g, was) && DisksOk(g, s.disks) && x < g.Stripes()
  {
    && (forall t: nat | BusyOn(s, x, t) :: BusyRight(g, was, s, x, t))
    && (Resting(s, x) ==> StripeMatches(g, was, s, x))
    && Safe(g, x, s.dead, Content(g, was, s.log, x))
  }

  /** A completed request of stripe x got the answer due after those completed before it. */
  ghost predicate EntryRight(g: Geo, was: Stripe, log: seq<Completion>, i: nat, dead: Option<nat>, x: nat)
    requires g.Valid() && Whole(g, was) && i < |log|
  {
    var c := log[i];
    StripeOf(g, c.req) == x ==>
      RightAnswer(g, c.req, c.began, c.wrote.Some?, c.status, c.data, dead, Content(g, was, log[..i], x))
  }

  ghost predicate EntriesRight(g: Geo, was: Stripe, s: State, x: nat)
    requires g.Valid() && Whole(g, was)
  {
    forall i | 0 <= i < |s.log| :: EntryRight(g, was, s.log, i, s.dead, x)
  }

  /** What holds of a single stripe x, whatever happens to the others. */
  ghost predicate DataInv(g: Geo, was: Stripe, s: State, x: nat)
    requires g.Valid()
  {
    && Whole(g, was) && DisksOk(g, s.disks) && x < g.Stripes()
    && StripeRight(g, was, s, x) && EntriesRight(g, was, s, x)
  }

  /** The failures considered for stripe x: writes to a disk fail exactly when it is dead, reads
      at least then. */
  ghost predicate Benign(g: Geo, s: State, a: Action, x: nat)
    requires g.Valid() && Enabled(g, s, a)
  {
    a.Effect? && s.tasks[a.t].stripe == x ==>
      var io := s.tasks[a.t].pc.ios[a.i];
      (a.ok ==> s.dead != Some(io.disk)) && (io.dir.Out? && !a.ok ==> s.dead == Some(io.disk))
  }

  /** The steps after which the data of stripe x depends on its parity: one of its data disks dies,
      or fails one of the first reads of a request while it lives. */
  ghost predicate Strains(g: Geo, s: State, a: Action, x: nat)
    requires g.Valid() && Enabled(g, s, a)
  {
    || (a.Die? && a.d != g.Parity(x))
    || (a.Effect? && !a.ok && s.tasks[a.t].stripe == x &&
        var pc := s.tasks[a.t].pc;
        var d := pc.ios[a.i].disk;
        (pc.phase.ReadWait? || pc.phase.RmwRead?) && d != g.Parity(x) && s.dead != Some(d))
  }

  /** A stripe none of whose data changed stays right. */
  lemma {:induction false} StripeSame(g: Geo, was: Stripe, s: State, s': State, x: nat)
    requires g.Valid() && Whole(g, was) && x < g.Stripes() && DisksOk(g, s.disks) && DisksOk(g, s'.disks)
    requires StripeRight(g, was, s, x)
    requires Rows(g, s'.disks, x) == Rows(g, s.disks, x) && s'.dead == s.dead
    requires Content(g, was, s'.log, x) == Content(g, was, s.log, x)
    requires forall t: nat | BusyOn(s', x, t) :: BusyOn(s, x, t) && s'.tasks[t].pc == s.tasks[t].pc
    requires Resting(s', x) ==> Resting(s, x)
    ensures StripeRight(g, was, s', x)
  {
    hide PhaseData, Exp, Content, Rows, Matches, Resting, DisksOk, Whole, Straight;
    forall t: nat | BusyOn(s', x, t)
      ensures BusyRight(g, was, s', x, t)
    {
      assert BusyRight(g, was, s, x, t);
    }
  }

  /** Steps that touch neither disks nor any request in progress. */
  lemma {:induction false} IdleStepData(g: Geo, was: Stripe, s: State, s': State, x: nat)
    requires g.Valid() && DataInv(g, was, s, x)
    requires s'.disks == s.disks && s'.dead == s.dead && s'.log == s.log && |s.tasks| <= |s'.tasks|
    requires forall t: nat | t < |s'.tasks| && s'.tasks[t].pc.Busy? :: t < |s.tasks| && s'.tasks[t] == s.tasks[t]
    requires forall t: nat | t < |s.tasks| && s.tasks[t].pc.Busy? :: s'.tasks[t] == s.tasks[t]
    ensures DataInv(g, was, s', x)
  {
    hide EntryRight, StripeRight, Content, Rows;
    if Resting(s', x) {
      forall t: nat
        ensures !BusyOn(s, x, t)
      {
        assert !BusyOn(s', x, t);
      }
    }
    StripeSame(g, was, s, s', x);
  }

  /** Task t is the only one at work on its stripe. */
  ghost predicate OnlyBusy(s: State, t: nat)
    requires t < |s.tasks|
  {
    forall u: nat | BusyOn(s, s.tasks[t].stripe, u) :: u == t
  }

  lemma {:induction false} DrainerAlone(g: Geo, s: State, t: nat)
    requires g.Valid() && Inv(g, s) && Live(s, t)
    ensures OnlyBusy(s, t) && s.tasks[t].stripe < g.Stripes() && DisksOk(g, s.disks)
    ensures s.tasks[t].pc.Busy? ==>
              BusyOk(g, s.tasks[t].stripe, s.tasks[t].pc.req, s.tasks[t].pc.phase, s.tasks[t].pc.ios)
  {
  }

  /** s' is s except for task t's phase, its stripe's rows, and perhaps one more log entry for
      that stripe. */
  ghost predicate StripeStep(g: Geo, s: State, s': State, t: nat)
    requires g.Valid()
  {
    && t < |s.tasks| && |s'.tasks| == |s.tasks| && s'.dead == s.dead
    && s'.tasks[t].stripe == s.tasks[t].stripe
    && (forall u | 0 <= u < |s.tasks| && u != t :: s'.tasks[u] == s.tasks[u])
    && DisksOk(g, s.disks) && DisksOk(g, s'.disks)
    && (forall x: nat | x < g.Stripes() && x != s.tasks[t].stripe :: Rows(g, s'.disks, x) == Rows(g, s.disks, x))
    && (s'.log == s.log || exists c :: s'.log == s.log + [c] && StripeOf(g, c.req) == s.tasks[t].stripe)
  }

  /** A step on one stripe keeps every other stripe right. */
  lemma {:induction false} OtherStripe(g: Geo, was: Stripe, s: State, s': State, t: nat, x: nat)
    requires g.Valid() && DataInv(g, was, s, x) && StripeStep(g, s, s', t) && x != s.tasks[t].stripe
    ensures DataInv(g, was, s', x)
  {
    hide StripeRight, Rows, EntryRight, Content, DisksOk, StripeOf;
    if s'.log != s.log {
      var c :| s'.log == s.log + [c] && StripeOf(g, c.req) == s.tasks[t].stripe;
      ContentPush(g, was, s.log, c, x);
      EntriesPush(g, was, s, s', c, x);
    }
    if Resting(s', x) {
      forall u: nat
        ensures !BusyOn(s, x, u)
      {
        assert !BusyOn(s', x, u);
      }
    }
    StripeSame(g, was, s, s', x);
  }

  /** Old entries of a longer log stay right. */
  lemma {:induction false} EntriesPush(g: Geo, was: Stripe, s: State, s': State, c: Completion, x: nat)
    requires g.Valid() && Whole(g, was) && EntriesRight(g, was, s, x)
    requires s'.log == s.log + [c] && s'.dead == s.dead
    requires StripeOf(g, c.req) == x ==>
               RightAnswer(g, c.req, c.began, c.wrote.Some?, c.status, c.data, s.dead, Content(g, was, s.log, x))
    ensures EntriesRight(g, was, s', x)
  {
    hide RightAnswer, Content, StripeOf;
    forall i | 0 <= i < |s'.log|
      ensures EntryRight(g, was, s'.log, i, s.dead, x)
    {
      assert s'.log[..i] == s.log[..i];
      if i < |s.log| {
        assert EntryRight(g, was, s.log, i, s.dead, x);
      } else {
        assert s'.log[..i] == s.log;
      }
    }
  }

  /** After a stretch of code that goes on properly. */
  lemma {:induction false} SettleData(g: Geo, was: Stripe, s: State, s': State, t: nat, r: Req, began: Option<nat>,
                                      o: Outlook)
    requires g.Valid() && t < |s.tasks| && OnlyBusy(s, t) && DataInv(g, was, s, s.tasks[t].stripe)
    requires s.tasks[t].stripe == StripeOf(g, r) && ValidReq(g, r)
    requires GoesOn(g, r, began, LostBy(s.tasks[t].pc), Spoilt(s.tasks[t].pc).Some?, o,
                    Rows(g, s.disks, StripeOf(g, r)), s.dead, Content(g, was, s.log, StripeOf(g, r)))
    requires s' == Settle(s.(chans := s'.chans), t, r, began, o)
    ensures DataInv(g, was, s', s.tasks[t].stripe)
  {
    hide Rows, Content, EntryRight, StripeRight, PhaseData, RightAnswer, After, Exp, Matches, ValidReq, StripeOf,
         Spoilt, LostBy;
    if o.Complete? {
      var c := Completion(r, began, LostBy(s.tasks[t].pc), Spoilt(s.tasks[t].pc), o.status, o.data);
      EntriesPush(g, was, s, s', c, StripeOf(g, r));
      CompleteRight(g, was, s, s', t, c);
    } else {
      AwaitRight(g, was, s, s', t, r, began, o);
    }
  }

  lemma {:induction false} ReqIsValid(g: Geo, stripe: nat, r: Req)
    requires g.Valid() && ReqOk(g, stripe, r)
    ensures ValidReq(g, r) && StripeOf(g, r) == stripe
  {
  }

  lemma {:induction false} StraightContent(g: Geo, was: Stripe, s: State, x: nat)
    requires g.Valid() && Whole(g, was) && DisksOk(g, s.disks) && x < g.Stripes() && StripeRight(g, was, s, x)
    ensures Safe(g, x, s.dead, Content(g, was, s.log, x))
  {
  }

  lemma {:induction false} CompleteRight(g: Geo, was: Stripe, s: State, s': State, t: nat, c: Completion)
    requires g.Valid() && Whole(g, was) && DisksOk(g, s.disks) && t < |s.tasks| && OnlyBusy(s, t)
    requires s.tasks[t].stripe == StripeOf(g, c.req) < g.Stripes() && ValidReq(g, c.req)
    requires StripeRight(g, was, s, s.tasks[t].stripe)
    requires var x := StripeOf(g, c.req);
             var fs := Content(g, was, s.log, x);
             Matches(Rows(g, s.disks, x), s.dead,
                     Exp(g, x, if c.wrote.Some? then After(g, c.req, Mended(g, fs, c.lost)) else fs))
    requires s'.disks == s.disks && s'.dead == s.dead && s'.log == s.log + [c]
    requires s'.tasks == s.tasks[t := s.tasks[t].(pc := AtDequeue)]
    ensures StripeRight(g, was, s', s.tasks[t].stripe)
  {
    var x := s.tasks[t].stripe;
    StraightContent(g, was, s, x);
    hide Rows, Content, After, Exp, Matches, ValidReq, StripeOf, DisksOk, Straight, BusyRight, Whole, Mended;
    ContentPush(g, was, s.log, c, x);
    AfterSkew(g, c.req, Mended(g, Content(g, was, s.log, x), c.lost));
    forall u: nat
      ensures !BusyOn(s', x, u)
    {
      assert BusyOn(s', x, u) ==> BusyOn(s, x, u);
    }
  }

  lemma {:induction false} AwaitRight(g: Geo, was: Stripe, s: State, s': State, t: nat, r: Req, began: Option<nat>,
                                      o: Outlook)
    requires g.Valid() && Whole(g, was) && DisksOk(g, s.disks) && t < |s.tasks| && OnlyBusy(s, t) && o.Await?
    requires s.tasks[t].stripe == StripeOf(g, r) < g.Stripes() && StripeRight(g, was, s, s.tasks[t].stripe)
    requires GoesOn(g, r, began, LostBy(s.tasks[t].pc), Spoilt(s.tasks[t].pc).Some?, o,
                    Rows(g, s.disks, StripeOf(g, r)), s.dead, Content(g, was, s.log, StripeOf(g, r)))
    requires s' == Settle(s.(chans := s'.chans), t, r, began, o)
    ensures StripeRight(g, was, s', s.tasks[t].stripe)
  {
    var x := s.tasks[t].stripe;
    StraightContent(g, was, s, x);
    hide Rows, Content, PhaseData, RightAnswer, After, Exp, Matches, StripeOf, DisksOk, Whole, Straight, LostBy,
         StripeMatches;
    assert BusyOn(s', x, t);
    forall u: nat | BusyOn(s', x, u)
      ensures BusyRight(g, was, s', x, u)
    {
      assert u != t ==> BusyOn(s, x, u);
    }
  }

  /** What a request in hand knows about its stripe. */
  lemma {:induction false} BusyAt(g: Geo, was: Stripe, s: State, t: nat)
    requires g.Valid() && Inv(g, s) && t < |s.tasks| && s.tasks[t].pc.Busy? && DataInv(g, was, s, s.tasks[t].stripe)
    ensures OnlyBusy(s, t) && DisksOk(g, s.disks) && Whole(g, was)
    ensures var pc, x := s.tasks[t].pc, s.tasks[t].stripe;
            && x < g.Stripes() && StripeOf(g, pc.req) == x && ReqOk(g, x, pc.req)
            && BusyOk(g, x, pc.req, pc.phase, pc.ios)
            && PhaseData(g, pc.req, pc.began, pc.lost, pc.phase, pc.ios, Rows(g, s.disks, x), s.dead,
                         Content(g, was, s.log, x))
  {
    hide Inv, Rows, Content, PhaseData, EntryRight, PhaseOk, ReqOk;
    assert Live(s, t);
    DrainerAlone(g, s, t);
    assert BusyOn(s, s.tasks[t].stripe, t);
    assert BusyRight(g, was, s, s.tasks[t].stripe, t);
    ReqIsValid(g, s.tasks[t].stripe, s.tasks[t].pc.req);
  }

  /** A stretch of code of task t is a step on its own stripe. */
  lemma {:induction false} SettleIsStep(g: Geo, s: State, s': State, t: nat, r: Req, began: Option<nat>, o: Outlook)
    requires g.Valid() && t < |s.tasks| && DisksOk(g, s.disks) && s.tasks[t].stripe == StripeOf(g, r)
    requires s' == Settle(s.(chans := s'.chans), t, r, began, o)
    ensures StripeStep(g, s, s', t)
  {
    hide StripeOf, Spoilt, LostBy, DisksOk;
  }

  lemma {:induction false} AdvanceData(g: Geo, was: Stripe, s: State, t: nat, x: nat)
    requires g.Valid() && Inv(g, s) && DataInv(g, was, s, x) && Enabled(g, s, Advance(t))
    ensures DataInv(g, was, AdvanceStep(g, s, t), x)
  {
    hide Inv, DataInv, Rows, Content, PhaseData, Resume, GoesOn, RepairSettled, AllDone, BusyOk, ReqOk, StripeOf,
         OnlyBusy, DisksOk, LostAfter;
    var s', pc, stripe := AdvanceStep(g, s, t), s.tasks[t].pc, s.tasks[t].stripe;
    if stripe == x {
      BusyAt(g, was, s, t);
      ReqIsValid(g, stripe, pc.req);
      ResumeData(g, pc.req, pc.began, pc.lost, pc.phase, pc.ios, Rows(g, s.disks, stripe), s.dead,
                 Content(g, was, s.log, stripe));
      SettleData(g, was, s, s', t, pc.req, pc.began, Resume(g, stripe, pc.req, pc.phase, pc.ios));
    } else {
      InHandOf(g, s, t);
      SettleIsStep(g, s, s', t, pc.req, pc.began, Resume(g, stripe, pc.req, pc.phase, pc.ios));
      OtherStripe(g, was, s, s', t, x);
    }
  }

  /** The request in hand belongs to its drainer's stripe. */
  lemma {:induction false} InHandOf(g: Geo, s: State, t: nat)
    requires g.Valid() && Inv(g, s) && t < |s.tasks| && s.tasks[t].pc.Busy?
    ensures StripeOf(g, s.tasks[t].pc.req) == s.tasks[t].stripe && DisksOk(g, s.disks)
  {
    hide Orderly, PhaseOk, IoOk;
    BusyEntry(g, s, t);
    ReqIsValid(g, s.tasks[t].stripe, s.tasks[t].pc.req);
  }

  lemma {:induction false} DequeueData(g: Geo, was: Stripe, s: State, t: nat, x: nat)
    requires g.Valid() && Inv(g, s) && DataInv(g, was, s, x) && Enabled(g, s, Dequeue(t))
    ensures DataInv(g, was, DequeueStep(g, s, t), x)
  {
    hide Inv, EntryRight, StripeRight, Rows, Content, GoesOn, Begin, ReqOk, StripeOf, OnlyBusy, DisksOk, Orderly,
         LostAfter, Queued, DequeueStep;
    var s', stripe := DequeueStep(g, s, t), s.tasks[t].stripe;
    DequeueNext(g, s, t);
    if Queued(g, s, stripe) == [] {
      IdleStepData(g, was, s, s', x);
    } else {
      var r := Queued(g, s, stripe)[0];
      if stripe == x {
        RestingMatches(g, was, s, t);
        ReqIsValid(g, stripe, r);
        BeginData(g, r, Rows(g, s.disks, stripe), s.dead, Content(g, was, s.log, stripe));
        SettleData(g, was, s, s', t, r, s.dead, Begin(g, stripe, r));
      } else {
        SettleIsStep(g, s, s', t, r, s.dead, Begin(g, stripe, r));
        OtherStripe(g, was, s, s', t, x);
      }
    }
  }

  /** A dequeue ends the drainer or takes the oldest pending request of its stripe. */
  lemma {:induction false} DequeueNext(g: Geo, s: State, t: nat)
    requires g.Valid() && Inv(g, s) && Enabled(g, s, Dequeue(t))
    ensures s.tasks[t].stripe < g.Stripes() && OnlyBusy(s, t) && DisksOk(g, s.disks) && Sized(g, s)
    ensures var s', q, stripe := DequeueStep(g, s, t), Queued(g, s, s.tasks[t].stripe), s.tasks[t].stripe;
            && (q == [] ==> s' == s.(chans := s'.chans, tasks := s.tasks[t := s.tasks[t].(pc := Finished)]))
            && (q != [] ==>
                  && ReqOk(g, stripe, q[0]) && StripeOf(g, q[0]) == stripe
                  && s' == Settle(s.(chans := s'.chans), t, q[0], s.dead, Begin(g, stripe, q[0])))
  {
    hide Orderly, Begin, StripeOf, ReqOk, BusyOk, OnlyBusy, DisksOk;
    DequeueEntry(g, s, t);
    DrainerAlone(g, s, t);
    if Queued(g, s, s.tasks[t].stripe) != [] {
      ReqIsValid(g, s.tasks[t].stripe, Queued(g, s, s.tasks[t].stripe)[0]);
    }
  }

  lemma {:induction false} RestingMatches(g: Geo, was: Stripe, s: State, t: nat)
    requires g.Valid() && t < |s.tasks| && DataInv(g, was, s, s.tasks[t].stripe)
    requires s.tasks[t].pc.AtDequeue? && OnlyBusy(s, t)
    ensures StripeMatches(g, was, s, s.tasks[t].stripe)
    ensures Safe(g, s.tasks[t].stripe, s.dead, Content(g, was, s.log, s.tasks[t].stripe))
  {
    hide EntryRight, StripeMatches, BusyRight, Content, Straight;
    assert Resting(s, s.tasks[t].stripe);
  }

  /** The state after one child I/O of task t: its outcome, and the disks if it was a write. */
  lemma {:induction false} EffectIs(g: Geo, s: State, t: nat, i: nat, ok: bool, junk: Bytes)
    requires g.Valid() && Inv(g, s) && Enabled(g, s, Effect(t, i, ok, junk))
    ensures var pc, stripe := s.tasks[t].pc, s.tasks[t].stripe;
            var io := pc.ios[i];
            && stripe < g.Stripes() && DisksOk(g, s.disks) && OnlyBusy(s, t)
            && io.disk < g.ndisks && g.Base(stripe) <= io.lo && io.lo + io.len <= g.Base(stripe) + g.strip <= g.child
            && (io.dir.Out? <==> pc.phase.WriteWait?) && (io.dir.Out? ==> |io.dir.data| == io.len)
            && (pc.phase.WriteWait? ==> DistinctDisks(pc.ios))
            && var data := if io.dir.In? && ok then s.disks[io.disk][io.lo..io.lo + io.len] else junk;
               EffectStep(g, s, t, i, ok, junk)
               == WithPc(s, t, pc.(ios := pc.ios[i := io.(out := Done(ok, data))])).(
                    disks := if io.dir.Out? then
                               s.disks[io.disk := Splice(s.disks[io.disk], io.lo, if ok then io.dir.data else junk)]
                             else s.disks)
  {
    hide Inv, Splice, PhaseOk, ReqOk, StripeOf, OnlyBusy;
    assert Live(s, t);
    DrainerAlone(g, s, t);
    assert IoOk(g, s.tasks[t].stripe, s.tasks[t].pc.ios[i], s.tasks[t].pc.phase.WriteWait?);
    StripeInside(g, s.tasks[t].stripe);
    if s.tasks[t].pc.phase.WriteWait? { WritesDistinct(g, s.tasks[t].stripe, s.tasks[t].pc); }
  }

  lemma {:induction false} EffectStripeStep(g: Geo, s: State, t: nat, i: nat, ok: bool, junk: Bytes)
    requires g.Valid() && Inv(g, s) && Enabled(g, s, Effect(t, i, ok, junk))
    ensures var s' := EffectStep(g, s, t, i, ok, junk);
            StripeStep(g, s, s', t) && s'.log == s.log && BusyOn(s', s.tasks[t].stripe, t)
  {
    hide Inv, Splice, Rows, EffectStep, OnlyBusy;
    EffectIs(g, s, t, i, ok, junk);
    var io, stripe := s.tasks[t].pc.ios[i], s.tasks[t].stripe;
    if io.dir.Out? {
      forall x: nat | x < g.Stripes()
        ensures DisksOk(g, EffectStep(g, s, t, i, ok, junk).disks)
        ensures x != stripe ==> Rows(g, EffectStep(g, s, t, i, ok, junk).disks, x) == Rows(g, s.disks, x)
      {
        RowsWritten(g, s.disks, stripe, io.disk, io.lo, if ok then io.dir.data else junk, x);
      }
    }
  }

  /** The request in hand stays on course. */
  lemma {:induction false} EffectRows(g: Geo, was: Stripe, s: State, t: nat, i: nat, ok: bool, junk: Bytes)
    requires g.Valid() && Inv(g, s) && Enabled(g, s, Effect(t, i, ok, junk)) && DataInv(g, was, s, s.tasks[t].stripe)
    requires Benign(g, s, Effect(t, i, ok, junk), s.tasks[t].stripe)
    requires Strains(g, s, Effect(t, i, ok, junk), s.tasks[t].stripe) ==>
               Straight(g, Content(g, was, s.log, s.tasks[t].stripe))
    ensures var s', stripe := EffectStep(g, s, t, i, ok, junk), s.tasks[t].stripe;
            && stripe < g.Stripes() && Whole(g, was) && DisksOk(g, s'.disks) && BusyOn(s', stripe, t)
            && BusyRight(g, was, s', stripe, t)
  {
    if s.tasks[t].pc.phase.WriteWait? {
      WriteEffectRows(g, was, s, t, i, ok, junk);
    } else {
      ReadEffectRows(g, was, s, t, i, ok, junk);
    }
  }

  lemma {:induction false} WriteEffectRows(g: Geo, was: Stripe, s: State, t: nat, i: nat, ok: bool, junk: Bytes)
    requires g.Valid() && Inv(g, s) && Enabled(g, s, Effect(t, i, ok, junk)) && DataInv(g, was, s, s.tasks[t].stripe)
    requires Benign(g, s, Effect(t, i, ok, junk), s.tasks[t].stripe) && s.tasks[t].pc.phase.WriteWait?
    ensures var s', stripe := EffectStep(g, s, t, i, ok, junk), s.tasks[t].stripe;
            && stripe < g.Stripes() && Whole(g, was) && DisksOk(g, s'.disks) && BusyOn(s', stripe, t)
            && BusyRight(g, was, s', stripe, t)
  {
    hide Inv, DataInv, Content, PhaseData, Splice, Rows, EffectStep, BusyOk, ReqOk, StripeOf, OnlyBusy, DistinctDisks,
         StripeStep, Geo.Base, Geo.Stripes, Geo.StripeLen, DisksOk, Whole;
    EffectIs(g, s, t, i, ok, junk);
    EffectDisksOk(g, s, t, i, ok, junk);
    BusyAt(g, was, s, t);
    var pc, stripe := s.tasks[t].pc, s.tasks[t].stripe;
    var io, base, rows, fs := pc.ios[i], g.Base(stripe), Rows(g, s.disks, stripe), Content(g, was, s.log, stripe);
    RowAt(g, s.disks, stripe, io.disk);
    var data := if ok then io.dir.data else junk;
    RowsWritten(g, s.disks, stripe, io.disk, io.lo, data, stripe);
    WriteEffectData(g, pc.req, pc.began, pc.lost, pc.ios, rows, s.dead, fs, i, ok, junk,
                    Splice(rows[io.disk], io.lo - base, data));
  }

  /** A read fails only where the stripe can do without it. */
  lemma {:induction false} ReadMayFail(g: Geo, was: Stripe, s: State, t: nat, i: nat, ok: bool, junk: Bytes)
    requires g.Valid() && Enabled(g, s, Effect(t, i, ok, junk)) && DataInv(g, was, s, s.tasks[t].stripe)
    requires Benign(g, s, Effect(t, i, ok, junk), s.tasks[t].stripe)
    requires Strains(g, s, Effect(t, i, ok, junk), s.tasks[t].stripe) ==>
               Straight(g, Content(g, was, s.log, s.tasks[t].stripe))
    ensures Whole(g, was)
    ensures var pc, x := s.tasks[t].pc, s.tasks[t].stripe;
            && (ok ==> s.dead != Some(pc.ios[i].disk))
            && (!ok && (pc.phase.ReadWait? || pc.phase.RmwRead?) ==>
                  Straight(g, Content(g, was, s.log, x)) || pc.ios[i].disk == g.Parity(x))
  {
    hide Content, Straight, BusyRight, StripeMatches, EntriesRight, DisksOk, Whole;
  }

  lemma {:induction false} ReadEffectRows(g: Geo, was: Stripe, s: State, t: nat, i: nat, ok: bool, junk: Bytes)
    requires g.Valid() && Inv(g, s) && Enabled(g, s, Effect(t, i, ok, junk)) && DataInv(g, was, s, s.tasks[t].stripe)
    requires Benign(g, s, Effect(t, i, ok, junk), s.tasks[t].stripe) && !s.tasks[t].pc.phase.WriteWait?
    requires Strains(g, s, Effect(t, i, ok, junk), s.tasks[t].stripe) ==>
               Straight(g, Content(g, was, s.log, s.tasks[t].stripe))
    ensures var s', stripe := EffectStep(g, s, t, i, ok, junk), s.tasks[t].stripe;
            && stripe < g.Stripes() && Whole(g, was) && DisksOk(g, s'.disks) && BusyOn(s', stripe, t)
            && BusyRight(g, was, s', stripe, t)
  {
    hide Inv, DataInv, Content, PhaseData, Splice, Rows, EffectStep, BusyOk, ReqOk, StripeOf, OnlyBusy, DistinctDisks,
         StripeStep, Geo.Base, Geo.Stripes, Geo.StripeLen, Whole, Straight, Benign, Strains;
    var pc, stripe := s.tasks[t].pc, s.tasks[t].stripe;
    ReadMayFail(g, was, s, t, i, ok, junk);
    EffectIs(g, s, t, i, ok, junk);
    EffectDisksOk(g, s, t, i, ok, junk);
    BusyAt(g, was, s, t);
    var io, base, rows, fs := pc.ios[i], g.Base(stripe), Rows(g, s.disks, stripe), Content(g, was, s.log, stripe);
    RowAt(g, s.disks, stripe, io.disk);
    var data := if ok then s.disks[io.disk][io.lo..io.lo + io.len] else junk;
    if ok { SliceOfSlice(s.disks[io.disk], base, g.strip, io.lo - base, io.len); }
    ReadEffectData(g, pc.req, pc.began, pc.lost, pc.phase, pc.ios, rows, s.dead, fs, i, ok, data);
  }

  lemma {:induction false} EffectDisksOk(g: Geo, s: State, t: nat, i: nat, ok: bool, junk: Bytes)
    requires g.Valid() && Inv(g, s) && Enabled(g, s, Effect(t, i, ok, junk))
    ensures DisksOk(g, EffectStep(g, s, t, i, ok, junk).disks)
  {
    hide Inv, EffectStep;
    EffectStripeStep(g, s, t, i, ok, junk);
  }

  lemma {:induction false} WritesDistinct(g: Geo, stripe: nat, pc: Pc)
    requires g.Valid() && pc.Busy? && pc.phase.WriteWait? && BusyOk(g, stripe, pc.req, pc.phase, pc.ios)
    ensures DistinctDisks(pc.ios)
  {
  }

  lemma {:induction false} EffectData(g: Geo, was: Stripe, s: State, t: nat, i: nat, ok: bool, junk: Bytes, x: nat)
    requires g.Valid() && Inv(g, s) && DataInv(g, was, s, x) && Enabled(g, s, Effect(t, i, ok, junk))
    requires Benign(g, s, Effect(t, i, ok, junk), x)
    requires Strains(g, s, Effect(t, i, ok, junk), x) ==> Straight(g, Content(g, was, s.log, x))
    ensures DataInv(g, was, EffectStep(g, s, t, i, ok, junk), x)
  {
    hide Inv, Content, PhaseData, Rows, EffectStep, StripeRight, EntryRight, Benign, Strains, Straight;
    var s' := EffectStep(g, s, t, i, ok, junk);
    EffectStripeStep(g, s, t, i, ok, junk);
    if s.tasks[t].stripe == x {
      EffectRows(g, was, s, t, i, ok, junk);
      StraightContent(g, was, s, x);
      BusyAt(g, was, s, t);
      OwnStripeBusy(g, was, s, s', t);
    } else {
      OtherStripe(g, was, s, s', t, x);
    }
  }

  lemma {:induction false} OwnStripeBusy(g: Geo, was: Stripe, s: State, s': State, t: nat)
    requires g.Valid() && Whole(g, was) && StripeStep(g, s, s', t) && OnlyBusy(s, t)
    requires s.tasks[t].stripe < g.Stripes() && BusyOn(s', s.tasks[t].stripe, t)
    requires BusyRight(g, was, s', s.tasks[t].stripe, t)
    requires Safe(g, s.tasks[t].stripe, s'.dead, Content(g, was, s'.log, s.tasks[t].stripe))
    ensures StripeRight(g, was, s', s.tasks[t].stripe)
  {
    hide Rows, BusyRight, StripeMatches, DisksOk, Whole, Content, Straight;
    var stripe := s.tasks[t].stripe;
    forall u: nat | BusyOn(s', stripe, u)
      ensures u == t
    {
      assert u != t ==> BusyOn(s, stripe, u);
    }
  }

  lemma {:induction false} DieStripe(g: Geo, was: Stripe, s: State, d: nat, x: nat)
    requires g.Valid() && Inv(g, s) && DataInv(g, was, s, x) && s.dead.None?
    requires Safe(g, x, Some(d), Content(g, was, s.log, x))
    ensures StripeRight(g, was, s.(dead := Some(d)), x)
  {
    hide Inv, Rows, Content, PhaseData, Exp, EntryRight, Straight;
    var s' := s.(dead := Some(d));
    forall t: nat | BusyOn(s', x, t)
      ensures BusyRight(g, was, s', x, t)
    {
      assert BusyOn(s, x, t);
      assert BusyRight(g, was, s, x, t);
      var pc := s.tasks[t].pc;
      InHandOf(g, s, t);
      DieData(g, pc.req, pc.began, pc.lost, pc.phase, pc.ios, Rows(g, s.disks, x), d, Content(g, was, s.log, x));
    }
    if Resting(s', x) {
      forall t: nat
        ensures !BusyOn(s, x, t)
      {
        assert !BusyOn(s', x, t);
      }
    }
  }

  lemma {:induction false} DiskDiesData(g: Geo, was: Stripe, s: State, d: nat, x: nat)
    requires g.Valid() && Inv(g, s) && DataInv(g, was, s, x) && s.dead.None?
    requires Safe(g, x, Some(d), Content(g, was, s.log, x))
    ensures DataInv(g, was, s.(dead := Some(d)), x)
  {
    hide Inv, Rows, Content, StripeRight, Touches, Straight;
    DieStripe(g, was, s, d, x);
    forall i | 0 <= i < |s.log|
      ensures EntryRight(g, was, s.log, i, Some(d), x)
    {
      assert EntryRight(g, was, s.log, i, s.dead, x);
    }
  }

  lemma {:induction false} PollData(g: Geo, was: Stripe, s: State, w: nat, x: nat)
    requires g.Valid() && Inv(g, s) && DataInv(g, was, s, x) && Enabled(g, s, Poll(w))
    ensures DataInv(g, was, PollStep(g, s, w), x)
  {
    hide Inv, DataInv, Enqueued, StripeOf;
    IdleStepData(g, was, s, PollStep(g, s, w), x);
  }

  /** Every step with benign failures keeps the data of stripe x right, one that makes it depend
      on its parity if that is consistent by then. */
  lemma {:induction false} StepData(g: Geo, was: Stripe, s: State, a: Action, x: nat)
    requires g.Valid() && Inv(g, s) && DataInv(g, was, s, x) && Enabled(g, s, a) && Benign(g, s, a, x)
    requires Strains(g, s, a, x) ==> Straight(g, Content(g, was, s.log, x))
    ensures DataInv(g, was, Next(g, s, a), x)
  {
    hide Inv, DataInv, PollStep, DequeueStep, EffectStep, AdvanceStep, Benign, Content, Straight;
    match a
    case Submit(r) => IdleStepData(g, was, s, SubmitStep(g, s, r), x);
    case Deliver(w) => IdleStepData(g, was, s, DeliverStep(g, s, w), x);
    case Poll(w) => PollData(g, was, s, w, x);
    case Dequeue(t) => DequeueData(g, was, s, t, x);
    case Effect(t, i, ok, junk) => EffectData(g, was, s, t, i, ok, junk, x);
    case Advance(t) => AdvanceData(g, was, s, t, x);
    case Die(d) => DiskDiesData(g, was, s, d, x);
  }
}
