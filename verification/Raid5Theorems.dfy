/** Main results on the RAID5 machine, for every run. */
module Raid5Theorems {
  import opened XorAlgebra
  import opened Geometry
  import opened Parity
  import opened StripeQueues
  import opened Raid5Machine
  import opened Raid5Shape
  import opened Raid5Order
  import opened Raid5Data
  import opened Raid5Refinement
  import opened Raid5Faults
  import opened LogicalArray

  // Numbering.

  /** Requests are valid and numbered in the order they were submitted. */
  ghost predicate Numbered(g: Geo, rs: seq<Req>)
    requires g.Valid()
  {
    forall i | 0 <= i < |rs| :: rs[i].id == i && ValidReq(g, rs[i])
  }

  lemma {:induction false} SubmittedOnly(g: Geo, s: State, a: Action)
    requires g.Valid() && Enabled(g, s, a)
    ensures Next(g, s, a).submitted == if a.Submit? then s.submitted + [a.req] else s.submitted
  {
    hide Enqueued, Dequeued, Begin, Resume, StripeOf;
  }

  lemma {:induction false} RunNumbered(g: Geo, run: seq<State>, acts: seq<Action>, n: nat)
    requires g.Valid() && IsRun(g, run, acts) && n < |run|
    ensures Numbered(g, run[n].submitted)
    decreases n
  {
    hide Next, ValidReq;
    if n > 0 {
      RunNumbered(g, run, acts, n - 1);
      SubmittedOnly(g, run[n - 1], acts[n - 1]);
    }
  }

  /** The requests of a stripe are a selection of all requests, in order. */
  lemma {:induction false} OnlyAt(g: Geo, rs: seq<Req>, stripe: nat, k: nat)
    requires g.Valid() && Numbered(g, rs) && k < |Only(g, rs, stripe)|
    ensures var r := Only(g, rs, stripe)[k];
            && r.id < |rs| && rs[r.id] == r && StripeOf(g, r) == stripe
            && Only(g, rs[..r.id], stripe) == Only(g, rs, stripe)[..k]
    decreases |rs|
  {
    hide StripeOf, ValidReq;
    var n := |rs| - 1;
    var most := Only(g, rs[..n], stripe);
    if k < |most| {
      OnlyAt(g, rs[..n], stripe, k);
      assert rs[..n][..most[k].id] == rs[..most[k].id];
      assert Only(g, rs, stripe)[..k] == most[..k];
    } else {
      assert Only(g, rs, stripe)[k] == rs[n];
      assert Only(g, rs, stripe)[..k] == most;
    }
  }

  /** Only over a prefix is a prefix. */
  lemma {:induction false} OnlyPrefix(g: Geo, rs: seq<Req>, stripe: nat, m: nat)
    requires g.Valid() && m <= |rs|
    ensures Only(g, rs[..m], stripe) <= Only(g, rs, stripe)
  {
    OnlyConcat(g, rs[..m], rs[m..], stripe);
    assert rs[..m] + rs[m..] == rs;
  }

  lemma {:induction false} CompletedPrefix(log: seq<Completion>, m: nat)
    requires m <= |log|
    ensures Completed(log[..m]) == Completed(log)[..m]
  {
  }

  // Order, exactly once, nothing lost: any pattern of child failures.

  /** What the drainer of a stripe, if there is one, has in hand. */
  ghost function InHand(s: State, stripe: nat): seq<Req> {
    if t: nat :| Live(s, t) && s.tasks[t].stripe == stripe then Current(s.tasks[t].pc) else []
  }

  /** Every submitted request of a stripe is, in submission order, completed, in hand, queued,
      or on its way: none is lost, repeated or overtaken. */
  lemma {:induction false} NothingLost(g: Geo, run: seq<State>, acts: seq<Action>, n: nat, stripe: nat)
    requires g.Valid() && IsRun(g, run, acts) && n < |run|
    ensures Sized(g, run[n])
    ensures Only(g, run[n].submitted, stripe)
            == Only(g, Completed(run[n].log), stripe) + InHand(run[n], stripe) + Queued(g, run[n], stripe)
               + Only(g, Payload(Coming(run[n], g.Owner(stripe))), stripe)
  {
    var s := run[n];
    RunInv(g, run, acts, n);
    hide Only, Payload, Completed, IsRun, Orderly;
    if InTable(g, s, stripe) {
      TableAt(g, s, g.Owner(stripe));
      var t: nat :| Live(s, t) && s.tasks[t].stripe == stripe;
      InHandIs(g, s, t);
      TaskAt(g, s, t);
    } else {
      IdleAt(g, s, stripe);
      NoHand(g, s, stripe);
      var done := Only(g, Completed(s.log), stripe);
      assert done + [] + [] == done;
    }
  }

  lemma {:induction false} InHandIs(g: Geo, s: State, t: nat)
    requires g.Valid() && Inv(g, s) && Live(s, t)
    ensures InHand(s, s.tasks[t].stripe) == Current(s.tasks[t].pc)
  {
  }

  lemma {:induction false} NoHand(g: Geo, s: State, stripe: nat)
    requires g.Valid() && Inv(g, s) && !InTable(g, s, stripe)
    ensures InHand(s, stripe) == []
  {
  }

  /** A stripe has a queue entry, on the worker that owns it and on no other, exactly while it
      has a drainer; there is never a second one, and the driver never panics. */
  lemma {:induction false} OneDrainerPerStripe(g: Geo, run: seq<State>, acts: seq<Action>, n: nat, stripe: nat)
    requires g.Valid() && IsRun(g, run, acts) && n < |run|
    ensures Sized(g, run[n]) && !run[n].panicked
    ensures InTable(g, run[n], stripe) <==> HasDrainer(run[n], stripe)
    ensures forall t: nat, u: nat ::
              Live(run[n], t) && Live(run[n], u) && run[n].tasks[t].stripe == run[n].tasks[u].stripe ==> t == u
    ensures forall w | 0 <= w < g.workers && run[n].chans[w].Some? && stripe in run[n].chans[w].value ::
              w == g.Owner(stripe)
    ensures |Queued(g, run[n], stripe)| > 0 ==> HasDrainer(run[n], stripe)
  {
    RunInv(g, run, acts, n);
    hide IsRun, Orderly, Live, InTable, HasDrainer, Queued;
    DrainerIffTable(g, run[n], stripe);
    forall t: nat, u: nat | Live(run[n], t) && Live(run[n], u) && run[n].tasks[t].stripe == run[n].tasks[u].stripe
      ensures t == u
    {
      DrainersDiffer(g, run[n], t, u);
    }
    forall w | 0 <= w < g.workers && run[n].chans[w].Some? && stripe in run[n].chans[w].value
      ensures w == g.Owner(stripe)
    {
      EntryOk(g, run[n], w, stripe);
    }
  }

  lemma {:induction false} DrainerIffTable(g: Geo, s: State, stripe: nat)
    requires g.Valid() && Inv(g, s)
    ensures InTable(g, s, stripe) <==> HasDrainer(s, stripe)
    ensures |Queued(g, s, stripe)| > 0 ==> HasDrainer(s, stripe)
  {
    hide Orderly, ConservedBy, BusyOk;
    if HasDrainer(s, stripe) {
      var t: nat :| Live(s, t) && s.tasks[t].stripe == stripe;
      TaskAt(g, s, t);
    }
    if InTable(g, s, stripe) { EntryOk(g, s, g.Owner(stripe), stripe); }
  }

  lemma {:induction false} DrainersDiffer(g: Geo, s: State, t: nat, u: nat)
    requires g.Valid() && Inv(g, s) && Live(s, t) && Live(s, u) && s.tasks[t].stripe == s.tasks[u].stripe
    ensures t == u
  {
    hide TaskOk, TableOk, MsgsOk, ConservedBy, ConservedIdle;
  }

  lemma {:induction false} FirstOfFour<T>(a: seq<T>, b: seq<T>, c: seq<T>, d: seq<T>)
    ensures a <= a + b + c + d
  {
  }

  lemma {:induction false} PrefixPrefix<T>(a: seq<T>, b: seq<T>, c: seq<T>)
    requires a <= b <= c
    ensures a <= c
  {
  }

  lemma {:induction false} PrefixAt<T>(all: seq<T>, before: seq<T>, x: T)
    requires before + [x] <= all
    ensures |before| < |all| && all[|before|] == x && all[..|before|] == before
  {
  }

  /** Completion i is that of the first request of its stripe not completed before. */
  lemma {:induction false} CompletedInOrder(g: Geo, run: seq<State>, acts: seq<Action>, n: nat, i: nat)
    requires g.Valid() && IsRun(g, run, acts) && n < |run| && i < |run[n].log|
    ensures var s := run[n];
            var r := s.log[i].req;
            && r.id < |s.submitted| && s.submitted[r.id] == r
            && Only(g, Completed(s.log[..i]), StripeOf(g, r)) == Only(g, s.submitted[..r.id], StripeOf(g, r))
  {
    var s := run[n];
    var r, stripe := s.log[i].req, StripeOf(g, s.log[i].req);
    hide IsRun, Only, Payload, Completed, StripeOf, Numbered, InHand, Queued, Sized;
    RunNumbered(g, run, acts, n);
    DonePrefix(g, run, acts, n, i);
    OnlyAt(g, s.submitted, stripe, |Only(g, Completed(s.log[..i]), stripe)|);
  }

  lemma {:induction false} DonePrefix(g: Geo, run: seq<State>, acts: seq<Action>, n: nat, i: nat)
    requires g.Valid() && IsRun(g, run, acts) && n < |run| && i < |run[n].log|
    ensures var s := run[n];
            var r, stripe := s.log[i].req, StripeOf(g, s.log[i].req);
            var before, all := Only(g, Completed(s.log[..i]), stripe), Only(g, s.submitted, stripe);
            |before| < |all| && all[|before|] == r && all[..|before|] == before
  {
    var s := run[n];
    var r, stripe := s.log[i].req, StripeOf(g, s.log[i].req);
    NothingLost(g, run, acts, n, stripe);
    hide IsRun, Only, Payload, Completed, StripeOf, InHand, Queued, Coming;
    var before, done, all := Only(g, Completed(s.log[..i]), stripe), Only(g, Completed(s.log), stripe),
                             Only(g, s.submitted, stripe);
    NextDone(g, s.log, i);
    FirstOfFour(done, InHand(s, stripe), Queued(g, s, stripe), Only(g, Payload(Coming(s, g.Owner(stripe))), stripe));
    PrefixPrefix(before + [r], done, all);
    PrefixAt(all, before, r);
  }

  lemma {:induction false} NextDone(g: Geo, log: seq<Completion>, i: nat)
    requires g.Valid() && i < |log|
    ensures var r, stripe := log[i].req, StripeOf(g, log[i].req);
            Only(g, Completed(log[..i]), stripe) + [r] <= Only(g, Completed(log), stripe)
  {
    hide Only, StripeOf;
    var r, stripe := log[i].req, StripeOf(g, log[i].req);
    CompletedPrefix(log, i);
    CompletedPrefix(log, i + 1);
    assert Completed(log)[..i + 1] == Completed(log)[..i] + [r];
    OnlyPush(g, Completed(log)[..i], r, stripe);
    OnlyPrefix(g, Completed(log), stripe, i + 1);
  }

  /** No request is completed twice. */
  lemma {:induction false} CompletedOnce(g: Geo, run: seq<State>, acts: seq<Action>, n: nat, i: nat, j: nat)
    requires g.Valid() && IsRun(g, run, acts) && n < |run| && i < j < |run[n].log|
    ensures run[n].log[i].req.id != run[n].log[j].req.id
  {
    CompletedInOrder(g, run, acts, n, i);
    CompletedInOrder(g, run, acts, n, j);
    hide IsRun, Only, Completed, StripeOf;
    DoneGrows(g, run[n].log, i, j);
  }

  lemma {:induction false} DoneGrows(g: Geo, log: seq<Completion>, i: nat, j: nat)
    requires g.Valid() && i < j <= |log|
    ensures var stripe := StripeOf(g, log[i].req);
            |Only(g, Completed(log[..i]), stripe)| < |Only(g, Completed(log[..j]), stripe)|
  {
    hide Only, Completed, StripeOf;
    assert log[..j][..i] == log[..i];
    NextDone(g, log[..j], i);
  }

  // Atomicity, stripe by stripe: at most one disk dies, at any moment; writes fail on it only,
  // reads may also fail elsewhere.

  /** How far the parity of stripe x is off after the completed requests, if it was off by `skew`:
      as before, until it is put right by a whole-stripe write, or by a partial one that lost the
      parity read and so rebuilt it. */
  function SkewAfter(g: Geo, log: seq<Completion>, x: nat, skew: Bytes): (now: Bytes)
    requires g.Valid() && |skew| == g.strip
    ensures |now| == g.strip
    ensures skew == Zeros(g.strip) ==> now == skew
  {
    if |log| == 0 then skew
    else
      var c := log[|log| - 1];
      if StripeOf(g, c.req) == x && c.wrote.Some? && (FullWrite(g, c.req) || c.lost > 0) then Zeros(g.strip)
      else SkewAfter(g, log[..|log| - 1], x, skew)
  }

  /** By now the parity of stripe x is consistent: it was so on the disks to begin with, or a
      completed write has put it right since. */
  ghost predicate ConsistentBy(g: Geo, disks: seq<Bytes>, log: seq<Completion>, x: nat)
    requires g.Valid() && DisksOk(g, disks) && x < g.Stripes()
  {
    SkewAfter(g, log, x, XorAll(Rows(g, disks, x), g.strip)) == Zeros(g.strip)
  }

  /** The failures considered for stripe x: its child writes fail exactly on a dead disk, its
      reads at least there; none of its data disks dies, or fails to read while it lives, before its
      parity is consistent. Nothing is asked of other stripes, and disks may start with anything on them. */
  ghost predicate BenignRun(g: Geo, run: seq<State>, acts: seq<Action>, x: nat)
    requires g.Valid() && IsRun(g, run, acts) && x < g.Stripes()
  {
    forall i | 0 <= i < |acts| ::
      && Benign(g, run[i], acts[i], x)
      && (Strains(g, run[i], acts[i], x) ==> ConsistentBy(g, run[0].disks, run[i].log, x))
  }

  /** A stripe that starts with consistent parity may always rely on it. */
  lemma {:induction false} ConsistentFromStart(g: Geo, disks: seq<Bytes>, log: seq<Completion>, x: nat)
    requires g.Valid() && DisksOk(g, disks) && x < g.Stripes()
    requires RowsCancel(g, disks) || StripeCancels(g, disks, x)
    ensures ConsistentBy(g, disks, log, x)
  {
    hide RowsCancel, Rows, XorAll, SkewAfter;
    CancelByStripe(g, disks);
    assert StripeCancels(g, disks, x);
  }

  lemma {:induction false} LogValid(g: Geo, run: seq<State>, acts: seq<Action>, n: nat)
    requires g.Valid() && IsRun(g, run, acts) && n < |run|
    ensures forall i | 0 <= i < |run[n].log| :: ValidReq(g, run[n].log[i].req)
  {
    hide IsRun, ValidReq, Only, Completed, StripeOf;
    RunNumbered(g, run, acts, n);
    forall i | 0 <= i < |run[n].log|
      ensures ValidReq(g, run[n].log[i].req)
    {
      CompletedInOrder(g, run, acts, n, i);
    }
  }

  lemma {:induction false} ContentSkew(g: Geo, was: Stripe, log: seq<Completion>, x: nat)
    requires g.Valid() && Whole(g, was) && forall i | 0 <= i < |log| :: ValidReq(g, log[i].req)
    ensures Content(g, was, log, x).skew == SkewAfter(g, log, x, was.skew)
    decreases |log|
  {
    hide After, ValidReq, StripeOf, FullWrite;
    if |log| > 0 {
      ContentSkew(g, was, log[..|log| - 1], x);
      AfterSkew(g, log[|log| - 1].req, Mended(g, Content(g, was, log[..|log| - 1], x), log[|log| - 1].lost));
    }
  }

  lemma {:induction false} InitialData(g: Geo, s: State, x: nat)
    requires g.Valid() && Initial(g, s) && x < g.Stripes()
    ensures DisksOk(g, s.disks) && DataInv(g, Found(g, s.disks, x), s, x)
  {
    hide Found, Rows, Exp;
    FoundMatches(g, s.disks, x);
  }

  lemma {:induction false} RunData(g: Geo, run: seq<State>, acts: seq<Action>, n: nat, x: nat)
    requires g.Valid() && IsRun(g, run, acts) && n < |run| && x < g.Stripes() && BenignRun(g, run, acts, x)
    ensures DisksOk(g, run[0].disks) && Inv(g, run[n]) && DataInv(g, Found(g, run[0].disks, x), run[n], x)
    decreases n
  {
    hide Inv, DataInv, Next, Benign, ConsistentBy, Found, Strains, Enabled, Straight;
    if n == 0 {
      InitialInv(g, run[0]);
      InitialData(g, run[0], x);
    } else {
      RunData(g, run, acts, n - 1, x);
      StepInv(g, run[n - 1], acts[n - 1]);
      if Strains(g, run[n - 1], acts[n - 1], x) { ConsistentIsStraight(g, run, acts, n - 1, x); }
      StepData(g, Found(g, run[0].disks, x), run[n - 1], acts[n - 1], x);
    }
  }

  lemma {:induction false} ConsistentIsStraight(g: Geo, run: seq<State>, acts: seq<Action>, n: nat, x: nat)
    requires g.Valid() && IsRun(g, run, acts) && n < |run| && x < g.Stripes()
    requires DisksOk(g, run[0].disks) && ConsistentBy(g, run[0].disks, run[n].log, x)
    ensures Straight(g, Content(g, Found(g, run[0].disks, x), run[n].log, x))
  {
    hide IsRun, Found, Content, SkewAfter, Rows, XorAll, ValidReq, Zeros;
    LogValid(g, run, acts, n);
    FoundIs(g, run[0].disks, x);
    ContentSkew(g, Found(g, run[0].disks, x), run[n].log, x);
  }

  /** A stripe after a series of requests for it. */
  function AfterAll(g: Geo, rs: seq<Req>, fs: Stripe): (now: Stripe)
    requires g.Valid() && Whole(g, fs)
    ensures Whole(g, now)
  {
    if |rs| == 0 then fs else After(g, rs[|rs| - 1], AfterAll(g, rs[..|rs| - 1], fs))
  }

  /** What a flat array holds of a stripe depends only on that stripe's requests, in order. */
  lemma {:induction false} ReplayByStripe(g: Geo, flat: Bytes, rs: seq<Req>, stripe: nat, skew: Bytes)
    requires g.Valid() && FlatOk(g, flat) && stripe < g.Stripes() && forall i | 0 <= i < |rs| :: ValidReq(g, rs[i])
    requires |skew| == g.strip
    ensures StripeBytes(g, Replay(g, flat, rs), stripe)
            == AfterAll(g, Only(g, rs, stripe), Stripe(StripeBytes(g, flat, stripe), skew)).bytes
    decreases |rs|
  {
    hide StripeBytes, Apply, After, ValidReq, StripeOf;
    var fs := Stripe(StripeBytes(g, flat, stripe), skew);
    if |rs| > 0 {
      var most, r := rs[..|rs| - 1], rs[|rs| - 1];
      var some := Only(g, most, stripe);
      ReplayByStripe(g, flat, most, stripe, skew);
      ApplyStripe(g, Replay(g, flat, most), r, stripe, AfterAll(g, some, fs).skew);
      if StripeOf(g, r) == stripe {
        assert (some + [r])[..|some|] == some;
      } else {
        assert some + [] == some;
      }
    }
  }

  lemma {:induction false} SameOnly(g: Geo, init: Bytes, a: seq<Req>, b: seq<Req>, stripe: nat)
    requires g.Valid() && FlatOk(g, init) && stripe < g.Stripes() && Only(g, a, stripe) == Only(g, b, stripe)
    requires (forall i | 0 <= i < |a| :: ValidReq(g, a[i])) && (forall i | 0 <= i < |b| :: ValidReq(g, b[i]))
    ensures StripeBytes(g, Replay(g, init, a), stripe) == StripeBytes(g, Replay(g, init, b), stripe)
  {
    hide StripeBytes, Replay, ValidReq, Only;
    ReplayByStripe(g, init, a, stripe, Zeros(g.strip));
    ReplayByStripe(g, init, b, stripe, Zeros(g.strip));
  }

  // Writes that were given up.

  /** A write that ended without getting to its write phase. */
  predicate GivenUp(g: Geo, c: Completion)
    requires g.Valid()
  {
    c.req.kind.Write? && Undivided(g, c.req) && c.wrote.None?
  }

  /** The completed requests but those given up. */
  function Standing(g: Geo, log: seq<Completion>): seq<Req>
    requires g.Valid()
  {
    if |log| == 0 then []
    else Standing(g, log[..|log| - 1]) + (if GivenUp(g, log[|log| - 1]) then [] else [log[|log| - 1].req])
  }

  ghost predicate Dropped(g: Geo, log: seq<Completion>, r: Req)
    requires g.Valid()
  {
    exists i :: 0 <= i < |log| && log[i].req == r && GivenUp(g, log[i])
  }

  /** Some requests but those given up. */
  ghost function Upheld(g: Geo, log: seq<Completion>, rs: seq<Req>): seq<Req>
    requires g.Valid()
  {
    if |rs| == 0 then []
    else Upheld(g, log, rs[..|rs| - 1]) + (if Dropped(g, log, rs[|rs| - 1]) then [] else [rs[|rs| - 1]])
  }

  lemma {:induction false} UpheldValid(g: Geo, log: seq<Completion>, rs: seq<Req>)
    requires g.Valid() && forall i | 0 <= i < |rs| :: ValidReq(g, rs[i])
    ensures forall i | 0 <= i < |Upheld(g, log, rs)| :: ValidReq(g, Upheld(g, log, rs)[i])
    decreases |rs|
  {
    hide ValidReq, Dropped;
    if |rs| > 0 { UpheldValid(g, log, rs[..|rs| - 1]); }
  }

  /** One stripe's requests, given-up ones left out, in either order. */
  lemma {:induction false} UpheldOnly(g: Geo, log: seq<Completion>, rs: seq<Req>, x: nat)
    requires g.Valid()
    ensures Only(g, Upheld(g, log, rs), x) == Upheld(g, log, Only(g, rs, x))
    decreases |rs|
  {
    hide Dropped, StripeOf;
    if |rs| > 0 {
      var most, r := rs[..|rs| - 1], rs[|rs| - 1];
      UpheldOnly(g, log, most, x);
      UpheldPush(g, log, Only(g, most, x), r);
      if Dropped(g, log, r) {
        assert Upheld(g, log, most) + [] == Upheld(g, log, most);
      } else {
        OnlyPush(g, Upheld(g, log, most), r, x);
      }
      assert Only(g, most, x) + [] == Only(g, most, x);
    }
  }

  lemma {:induction false} UpheldPush(g: Geo, log: seq<Completion>, rs: seq<Req>, r: Req)
    requires g.Valid()
    ensures Upheld(g, log, rs + [r]) == Upheld(g, log, rs) + (if Dropped(g, log, r) then [] else [r])
  {
    hide Dropped;
  }

  lemma {:induction false} StandingPush(g: Geo, log: seq<Completion>, c: Completion)
    requires g.Valid()
    ensures Standing(g, log + [c]) == Standing(g, log) + (if GivenUp(g, c) then [] else [c.req])
  {
  }

  /** Requests are completed once, so those dropped are those of the entries given up. */
  lemma {:induction false} StandingIsUpheld(g: Geo, run: seq<State>, acts: seq<Action>, n: nat, m: nat)
    requires g.Valid() && IsRun(g, run, acts) && n < |run| && m <= |run[n].log|
    ensures Standing(g, run[n].log[..m]) == Upheld(g, run[n].log, Completed(run[n].log[..m]))
    decreases m
  {
    hide IsRun, Standing, Upheld, GivenUp, Completed, Dropped;
    var log := run[n].log;
    if m > 0 {
      var c := log[m - 1];
      StandingIsUpheld(g, run, acts, n, m - 1);
      assert log[..m] == log[..m - 1] + [c];
      StandingPush(g, log[..m - 1], c);
      CompletedPush(log[..m - 1], c);
      UpheldPush(g, log, Completed(log[..m - 1]), c.req);
      DroppedOnce(g, run, acts, n, m - 1);
    } else {
      assert log[..0] == [];
      EmptyLists(g, log);
    }
  }

  lemma {:induction false} EmptyLists(g: Geo, log: seq<Completion>)
    requires g.Valid()
    ensures Standing(g, []) == [] && Upheld(g, log, Completed([])) == []
  {
  }

  lemma {:induction false} DroppedOnce(g: Geo, run: seq<State>, acts: seq<Action>, n: nat, i: nat)
    requires g.Valid() && IsRun(g, run, acts) && n < |run| && i < |run[n].log|
    ensures Dropped(g, run[n].log, run[n].log[i].req) <==> GivenUp(g, run[n].log[i])
  {
    hide IsRun, GivenUp;
    var log := run[n].log;
    forall j | 0 <= j < |log| && log[j].req == log[i].req
      ensures j == i
    {
      if j < i { CompletedOnce(g, run, acts, n, j, i); } else if i < j { CompletedOnce(g, run, acts, n, i, j); }
    }
  }

  /** The content of a stripe is what the flat array holds of it after the requests that stand. */
  lemma {:induction false} ContentFlat(g: Geo, flat: Bytes, was: Stripe, log: seq<Completion>, x: nat)
    requires g.Valid() && FlatOk(g, flat) && x < g.Stripes() && Whole(g, was) && was.bytes == StripeBytes(g, flat, x)
    requires forall i | 0 <= i < |log| :: ValidReq(g, log[i].req)
    requires forall i | 0 <= i < |log| && log[i].wrote.Some? :: log[i].req.kind.Write? && Undivided(g, log[i].req)
    ensures Content(g, was, log, x).bytes == StripeBytes(g, Replay(g, flat, Standing(g, log)), x)
    decreases |log|
  {
    hide StripeBytes, Replay, After, ValidReq, StripeOf, InOneStripe, Undivided, Apply, Whole;
    if |log| > 0 {
      var most, c := log[..|log| - 1], log[|log| - 1];
      var before, now := Content(g, was, most, x), Replay(g, flat, Standing(g, most));
      ContentFlat(g, flat, was, most, x);
      if GivenUp(g, c) {
        assert Standing(g, log) == Standing(g, most);
      } else {
        ReplayPush(g, flat, Standing(g, most), c.req);
        var mended := Mended(g, before, c.lost);
        SkewLength(g, mended);
        ApplyStripe(g, now, c.req, x, mended.skew);
        if c.wrote.None? {
          InOneStripeIff(g, c.req);
          CrossStripe(g, c.req, mended);
        }
      }
    } else {
      NoneStand(g, flat);
    }
  }

  lemma {:induction false} NoneStand(g: Geo, flat: Bytes)
    requires g.Valid() && FlatOk(g, flat)
    ensures Replay(g, flat, Standing(g, [])) == flat
  {
  }

  lemma {:induction false} SkewLength(g: Geo, fs: Stripe)
    requires g.Valid() && Whole(g, fs)
    ensures |fs.skew| == g.strip && fs == Stripe(fs.bytes, fs.skew)
  {
  }

  /** Only writes inside a stripe get to a write phase. */
  lemma {:induction false} WritersWrite(g: Geo, run: seq<State>, acts: seq<Action>, n: nat)
    requires g.Valid() && IsRun(g, run, acts) && n < |run|
    ensures forall i | 0 <= i < |run[n].log| && run[n].log[i].wrote.Some? ::
              run[n].log[i].req.kind.Write? && Undivided(g, run[n].log[i].req)
  {
    hide IsRun, Undivided;
    forall i | 0 <= i < |run[n].log| && run[n].log[i].wrote.Some?
      ensures run[n].log[i].req.kind.Write? && Undivided(g, run[n].log[i].req)
    {
      AnswerPolicy(g, run, acts, n, i);
    }
  }

  /** The content of stripe x after the first m completions, through any list of requests that
      holds the same ones for that stripe. */
  lemma {:induction false} ContentOver(g: Geo, run: seq<State>, acts: seq<Action>, n: nat, m: nat, x: nat,
                                       rs: seq<Req>)
    requires g.Valid() && IsRun(g, run, acts) && n < |run| && m <= |run[n].log| && x < g.Stripes()
    requires forall i | 0 <= i < |rs| :: ValidReq(g, rs[i])
    requires Only(g, rs, x) == Only(g, Standing(g, run[n].log[..m]), x)
    ensures DisksOk(g, run[0].disks)
    ensures Content(g, Found(g, run[0].disks, x), run[n].log[..m], x).bytes
            == StripeBytes(g, Replay(g, Logical(g, run[0].disks, None), rs), x)
  {
    assert DisksOk(g, run[0].disks);
    hide IsRun, Found, Logical, Content, StripeBytes, Replay, Standing, Only, ValidReq, Undivided, Whole, DisksOk,
         Rows, XorAll;
    var log, flat := run[n].log[..m], Logical(g, run[0].disks, None);
    FoundIs(g, run[0].disks, x);
    LogValid(g, run, acts, n);
    WritersWrite(g, run, acts, n);
    ContentFlat(g, flat, Found(g, run[0].disks, x), log, x);
    StandingValid(g, log);
    SameOnly(g, flat, rs, Standing(g, log), x);
  }

  lemma {:induction false} StandingValid(g: Geo, log: seq<Completion>)
    requires g.Valid() && forall i | 0 <= i < |log| :: ValidReq(g, log[i].req)
    ensures forall i | 0 <= i < |Standing(g, log)| :: ValidReq(g, Standing(g, log)[i])
    decreases |log|
  {
    hide ValidReq, GivenUp;
    if |log| > 0 { StandingValid(g, log[..|log| - 1]); }
  }

  /** The requests of a stripe that stand before completion i, found among those submitted. */
  lemma {:induction false} StandingBefore(g: Geo, run: seq<State>, acts: seq<Action>, n: nat, i: nat, x: nat)
    requires g.Valid() && IsRun(g, run, acts) && n < |run| && i < |run[n].log|
    requires StripeOf(g, run[n].log[i].req) == x
    ensures var s, c := run[n], run[n].log[i];
            && c.req.id < |s.submitted| && s.submitted[c.req.id] == c.req
            && Only(g, Standing(g, s.log[..i]), x) == Only(g, Upheld(g, s.log, s.submitted[..c.req.id]), x)
  {
    hide IsRun, Standing, Only, Upheld, Completed, StripeOf;
    var s, c := run[n], run[n].log[i];
    CompletedInOrder(g, run, acts, n, i);
    StandingIsUpheld(g, run, acts, n, i);
    UpheldOnly(g, s.log, Completed(s.log[..i]), x);
    UpheldOnly(g, s.log, s.submitted[..c.req.id], x);
  }

  // The array as a flat one.

  /** How a flat array with contents `flat` answers a request that was carried out. */
  ghost predicate FlatAnswer(g: Geo, c: Completion, dead: Option<nat>, flat: Bytes)
    requires g.Valid() && FlatOk(g, flat) && ValidReq(g, c.req)
  {
    && (c.began.Some? ==> dead == c.began)
    && (c.req.kind.Read? && c.status == Success ==> c.data == flat[c.req.off..c.req.off + c.req.len])
    && (c.wrote.Some? ==>
          && (c.status == Success && c.began.Some? ==> !Touches(g, c.req, c.began.value))
          && (c.status == Failure ==> dead.Some? && Touches(g, c.req, dead.value)))
  }

  lemma {:induction false} AnswerFlat(g: Geo, c: Completion, dead: Option<nat>, flat: Bytes, fs: Stripe)
    requires g.Valid() && FlatOk(g, flat) && ValidReq(g, c.req) && StripeOf(g, c.req) < g.Stripes() && Whole(g, fs)
    requires fs.bytes == StripeBytes(g, flat, StripeOf(g, c.req))
    requires RightAnswer(g, c.req, c.began, c.wrote.Some?, c.status, c.data, dead, fs)
    ensures FlatAnswer(g, c, dead, flat)
  {
    if c.req.kind.Read? && c.status == Success {
      hide Geo.First, Geo.StripeLen, Geo.Capacity, Geo.Stripes, StripeOf, StartOf;
      StripeRange(g, StripeOf(g, c.req));
      RequestPlace(g, c.req);
      SliceOfSlice(flat, g.First(StripeOf(g, c.req)), g.StripeLen(), StartOf(g, c.req), c.req.len);
    } else {
      hide StripeBytes, Touches;
    }
  }

  /** Request of completion i, answered by any list of requests that holds those of its stripe
      that stand before it. */
  lemma {:induction false} AnsweredOver(g: Geo, run: seq<State>, acts: seq<Action>, n: nat, i: nat, x: nat,
                                        rs: seq<Req>)
    requires g.Valid() && IsRun(g, run, acts) && n < |run| && x < g.Stripes() && BenignRun(g, run, acts, x)
    requires i < |run[n].log| && StripeOf(g, run[n].log[i].req) == x
    requires forall j | 0 <= j < |rs| :: ValidReq(g, rs[j])
    requires Only(g, rs, x) == Only(g, Standing(g, run[n].log[..i]), x)
    ensures DisksOk(g, run[0].disks) && ValidReq(g, run[n].log[i].req)
    ensures FlatAnswer(g, run[n].log[i], run[n].dead, Replay(g, Logical(g, run[0].disks, None), rs))
  {
    hide IsRun, Found, Logical, Content, StripeBytes, Replay, Standing, Only, ValidReq, BenignRun, RightAnswer,
         StripeRight, Inv, FlatAnswer, StripeOf, Whole;
    RunData(g, run, acts, n, x);
    LogValid(g, run, acts, n);
    ContentOver(g, run, acts, n, i, x, rs);
    var s, was := run[n], Found(g, run[0].disks, x);
    assert EntryRight(g, was, s.log, i, s.dead, x);
    AnswerFlat(g, s.log[i], s.dead, Replay(g, Logical(g, run[0].disks, None), rs), Content(g, was, s.log[..i], x));
  }

  /** Linearizability, stripe by stripe. While at most one disk dies and reads may fail anywhere,
      request number k of the submission order is answered as a flat array would that had taken
      requests 0 .. k - 1 one after the other, but for writes given up, which have no effect at
      all: whatever the interleaving, whether or not a disk is dead, and whatever becomes of
      other stripes. Policy says when a read fails and when a write is given up. */
  lemma {:induction false} Linearizable(g: Geo, run: seq<State>, acts: seq<Action>, n: nat, i: nat, x: nat)
    requires g.Valid() && IsRun(g, run, acts) && n < |run| && x < g.Stripes() && BenignRun(g, run, acts, x)
    requires i < |run[n].log| && StripeOf(g, run[n].log[i].req) == x
    ensures DisksOk(g, run[0].disks)
    ensures var s, c := run[n], run[n].log[i];
            && c.req.id < |s.submitted| && s.submitted[c.req.id] == c.req && ValidReq(g, c.req) && Policy(g, c)
            && FlatAnswer(g, c, s.dead,
                          Replay(g, Logical(g, run[0].disks, None), Upheld(g, s.log, s.submitted[..c.req.id])))
  {
    hide IsRun, BenignRun, Replay, Only, FlatAnswer, ValidReq, StripeOf, Upheld, Logical, Standing, Policy;
    var s, c := run[n], run[n].log[i];
    RunNumbered(g, run, acts, n);
    StandingBefore(g, run, acts, n, i, x);
    UpheldValid(g, s.log, s.submitted[..c.req.id]);
    AnsweredOver(g, run, acts, n, i, x, Upheld(g, s.log, s.submitted[..c.req.id]));
    AnswerPolicy(g, run, acts, n, i);
  }

  /** If on its stripe only a dead disk fails to read, nothing is given up: a read succeeds, with
      what requests 0 .. k - 1 left on the flat array, and a write takes effect. */
  lemma {:induction false} LinearizableIfSpared(g: Geo, run: seq<State>, acts: seq<Action>, n: nat, i: nat, x: nat)
    requires g.Valid() && IsRun(g, run, acts) && n < |run| && x < g.Stripes()
    requires BenignRun(g, run, acts, x) && SparedRun(g, run, acts, x)
    requires i < |run[n].log| && StripeOf(g, run[n].log[i].req) == x && Undivided(g, run[n].log[i].req)
    ensures DisksOk(g, run[0].disks)
    ensures var s, c := run[n], run[n].log[i];
            && c.req.id < |s.submitted| && s.submitted[c.req.id] == c.req && ValidReq(g, c.req)
            && (c.req.kind.Read? ==> c.status == Success) && (c.req.kind.Write? ==> c.wrote.Some?)
            && FlatAnswer(g, c, s.dead, Replay(g, Logical(g, run[0].disks, None), s.submitted[..c.req.id]))
  {
    hide IsRun, BenignRun, Replay, Only, FlatAnswer, ValidReq, StripeOf, Upheld, Logical, Standing, SparedRun,
         Undivided;
    var s, c := run[n], run[n].log[i];
    RunNumbered(g, run, acts, n);
    StandingBefore(g, run, acts, n, i, x);
    NoneGivenUp(g, run, acts, n, i, x);
    NoneDropped(g, run, acts, n, x, s.submitted[..c.req.id]);
    AnsweredOver(g, run, acts, n, i, x, s.submitted[..c.req.id]);
  }

  /** Nothing given up on a stripe: all its requests stand. */
  lemma {:induction false} NoneDropped(g: Geo, run: seq<State>, acts: seq<Action>, n: nat, x: nat, rs: seq<Req>)
    requires g.Valid() && IsRun(g, run, acts) && n < |run| && SparedRun(g, run, acts, x)
    ensures Only(g, Upheld(g, run[n].log, rs), x) == Only(g, rs, x)
    decreases |rs|
  {
    hide IsRun, Dropped, StripeOf, SparedRun;
    if |rs| > 0 {
      var most, r := rs[..|rs| - 1], rs[|rs| - 1];
      NoneDropped(g, run, acts, n, x, most);
      if Dropped(g, run[n].log, r) {
        DroppedElsewhere(g, run, acts, n, x, r);
        assert Upheld(g, run[n].log, most) + [] == Upheld(g, run[n].log, most);
      } else {
        OnlyPush(g, Upheld(g, run[n].log, most), r, x);
      }
    }
  }

  lemma {:induction false} DroppedElsewhere(g: Geo, run: seq<State>, acts: seq<Action>, n: nat, x: nat, r: Req)
    requires g.Valid() && IsRun(g, run, acts) && n < |run| && SparedRun(g, run, acts, x)
    requires Dropped(g, run[n].log, r)
    ensures StripeOf(g, r) != x
  {
    hide IsRun, SparedRun, StripeOf, Undivided;
    var i :| 0 <= i < |run[n].log| && run[n].log[i].req == r && GivenUp(g, run[n].log[i]);
    if StripeOf(g, r) == x { NoneGivenUp(g, run, acts, n, i, x); }
  }

  ghost predicate BeingWritten(s: State, stripe: nat) {
    exists t: nat :: BusyOn(s, stripe, t) && s.tasks[t].pc.phase.WriteWait?
  }

  /** At every moment, a stripe that is not being written reads, through the address map and
      with a dead disk's bytes rebuilt, as the flat array after the completed requests that
      stand; and while all disks live the exclusive-or of its strips is what it was in the
      beginning, until a write makes it nothing that covers the stripe or rebuilds its parity. */
  lemma {:induction false} StripeAsFlat(g: Geo, run: seq<State>, acts: seq<Action>, n: nat, x: nat)
    requires g.Valid() && IsRun(g, run, acts) && n < |run| && x < g.Stripes() && BenignRun(g, run, acts, x)
    requires !BeingWritten(run[n], x)
    ensures DisksOk(g, run[0].disks) && DisksOk(g, run[n].disks)
    ensures StripeBytes(g, Logical(g, run[n].disks, run[n].dead), x)
            == StripeBytes(g, Replay(g, Logical(g, run[0].disks, None), Standing(g, run[n].log)), x)
    ensures run[n].dead.None? ==>
              XorAll(Rows(g, run[n].disks, x), g.strip)
              == SkewAfter(g, run[n].log, x, XorAll(Rows(g, run[0].disks, x), g.strip))
  {
    hide IsRun, Found, BenignRun, Replay, Inv, DataInv, StripeBytes, Rows, BeingWritten, XorAll, SkewAfter, Logical,
         Standing, Only, ValidReq, Content, Straight, Whole;
    RunData(g, run, acts, n, x);
    var was, s := Found(g, run[0].disks, x), run[n];
    NotWrittenMatches(g, was, s, x);
    MatchesLogical(g, s.disks, s.dead, x, Content(g, was, s.log, x));
    LogValid(g, run, acts, n);
    ContentSkew(g, was, s.log, x);
    FoundIs(g, run[0].disks, x);
    StandingValid(g, s.log);
    assert s.log[..|s.log|] == s.log;
    ContentOver(g, run, acts, n, |s.log|, x, Standing(g, s.log));
  }

  lemma {:induction false} NotWrittenMatches(g: Geo, was: Stripe, s: State, x: nat)
    requires g.Valid() && Inv(g, s) && DataInv(g, was, s, x) && !BeingWritten(s, x)
    ensures Whole(g, was) && x < g.Stripes() && DisksOk(g, s.disks) && StripeMatches(g, was, s, x)
    ensures Safe(g, x, s.dead, Content(g, was, s.log, x))
  {
    hide Straight, Inv, EntryRight, Content, Rows, Exp, Matches, PhaseData, BusyOk, ReqOk, StripeOf, BusyRight, Whole;
    if t: nat :| BusyOn(s, x, t) {
      BusyAt(g, was, s, t);
      var pc := s.tasks[t].pc;
      ReadingMatches(g, pc.req, pc.began, pc.lost, pc.phase, pc.ios, Rows(g, s.disks, x), s.dead,
                     Content(g, was, s.log, x));
    } else {
      assert Resting(s, x);
    }
  }

  lemma {:induction false} ReadingMatches(g: Geo, r: Req, began: Option<nat>, lost: nat, phase: Phase,
                                          ios: seq<ChildIo>, rows: seq<Bytes>, dead: Option<nat>, fs: Stripe)
    requires g.Valid() && Whole(g, fs) && !phase.WriteWait?
    requires PhaseData(g, r, began, lost, phase, ios, rows, dead, fs)
    ensures Matches(rows, dead, Exp(g, StripeOf(g, r), fs))
  {
  }

  // When all is done.

  /** Nothing under way: no message, no pending request, no drainer. */
  ghost predicate Quiet(s: State) {
    && (forall w | 0 <= w < |s.ring| :: s.ring[w] == [])
    && (forall w | 0 <= w < |s.runq| :: s.runq[w] == [])
    && (forall t: nat :: !Live(s, t))
  }

  lemma {:induction false} QuietStripe(g: Geo, run: seq<State>, acts: seq<Action>, n: nat, stripe: nat)
    requires g.Valid() && IsRun(g, run, acts) && n < |run| && Quiet(run[n])
    ensures Only(g, Completed(run[n].log), stripe) == Only(g, run[n].submitted, stripe)
  {
    var s := run[n];
    NothingLost(g, run, acts, n, stripe);
    RunInv(g, run, acts, n);
    hide IsRun, Only, Completed, Orderly, Queued, InHand;
    assert Coming(s, g.Owner(stripe)) == [];
    DrainerIffTable(g, s, stripe);
    QuietHands(g, s, stripe);
    var done := Only(g, Completed(s.log), stripe);
    assert done + [] + [] + [] == done;
  }

  lemma {:induction false} QuietHands(g: Geo, s: State, stripe: nat)
    requires g.Valid() && Sized(g, s) && Quiet(s) && !InTable(g, s, stripe)
    ensures InHand(s, stripe) == [] && Queued(g, s, stripe) == [] && Only(g, Payload([]), stripe) == []
  {
  }

  /** When nothing is under way, every submitted request has been completed exactly once, and
      the disks hold the flat array of all of them but those given up, in submission order. */
  lemma {:induction false} QuietArray(g: Geo, run: seq<State>, acts: seq<Action>, n: nat)
    requires g.Valid() && IsRun(g, run, acts) && n < |run| && Quiet(run[n])
    requires forall x: nat | x < g.Stripes() :: BenignRun(g, run, acts, x)
    ensures DisksOk(g, run[0].disks) && DisksOk(g, run[n].disks)
    ensures Logical(g, run[n].disks, run[n].dead)
            == Replay(g, Logical(g, run[0].disks, None), Upheld(g, run[n].log, run[n].submitted))
    ensures run[n].dead.None? && RowsCancel(g, run[0].disks) ==> RowsCancel(g, run[n].disks)
  {
    assert DisksOk(g, run[0].disks);
    RunInv(g, run, acts, n);
    InvDisks(g, run[n]);
    hide IsRun, Logical, RowsCancel, BenignRun, Replay, Inv, StripeBytes, StripeCancels, Quiet, Upheld, DisksOk;
    var flat, s := Logical(g, run[0].disks, None), run[n];
    forall x: nat | x < g.Stripes()
      ensures StripeBytes(g, Logical(g, s.disks, s.dead), x)
              == StripeBytes(g, Replay(g, flat, Upheld(g, s.log, s.submitted)), x)
      ensures s.dead.None? && StripeCancels(g, run[0].disks, x) ==> StripeCancels(g, s.disks, x)
    {
      QuietStripeArray(g, run, acts, n, x);
    }
    SameByStripes(g, Logical(g, s.disks, s.dead), Replay(g, flat, Upheld(g, s.log, s.submitted)));
    CancelByStripe(g, s.disks);
    CancelByStripe(g, run[0].disks);
  }

  lemma {:induction false} QuietStripeArray(g: Geo, run: seq<State>, acts: seq<Action>, n: nat, x: nat)
    requires g.Valid() && IsRun(g, run, acts) && n < |run| && x < g.Stripes() && BenignRun(g, run, acts, x)
    requires Quiet(run[n])
    ensures DisksOk(g, run[0].disks) && DisksOk(g, run[n].disks)
    ensures StripeBytes(g, Logical(g, run[n].disks, run[n].dead), x)
            == StripeBytes(g, Replay(g, Logical(g, run[0].disks, None), Upheld(g, run[n].log, run[n].submitted)), x)
    ensures run[n].dead.None? && StripeCancels(g, run[0].disks, x) ==> StripeCancels(g, run[n].disks, x)
  {
    var s := run[n];
    assert !BeingWritten(s, x) by { QuietNotWritten(s, x); }
    hide IsRun, Logical, BenignRun, Replay, StripeBytes, Quiet, Only, Completed, BeingWritten, ValidReq, Rows, XorAll,
         SkewAfter, Upheld, Standing;
    StripeAsFlat(g, run, acts, n, x);
    QuietStripe(g, run, acts, n, x);
    RunNumbered(g, run, acts, n);
    LogValid(g, run, acts, n);
    StandingIsUpheld(g, run, acts, n, |s.log|);
    assert s.log[..|s.log|] == s.log;
    UpheldOnly(g, s.log, Completed(s.log), x);
    UpheldOnly(g, s.log, s.submitted, x);
    StandingValid(g, s.log);
    UpheldValid(g, s.log, s.submitted);
    SameOnly(g, Logical(g, run[0].disks, None), Standing(g, s.log), Upheld(g, s.log, s.submitted), x);
  }

  /** And if only a dead disk fails to read, that is all of them. */
  lemma {:induction false} AllUpheld(g: Geo, run: seq<State>, acts: seq<Action>, n: nat)
    requires g.Valid() && IsRun(g, run, acts) && n < |run|
    requires forall x: nat | x < g.Stripes() :: SparedRun(g, run, acts, x)
    ensures Upheld(g, run[n].log, run[n].submitted) == run[n].submitted
  {
    hide IsRun, SparedRun, Upheld, Dropped, ValidReq, StripeOf;
    var s := run[n];
    RunNumbered(g, run, acts, n);
    forall i | 0 <= i < |s.submitted|
      ensures !Dropped(g, s.log, s.submitted[i])
    {
      var x := StripeOf(g, s.submitted[i]);
      ReqInRange(g, s.submitted[i]);
      if Dropped(g, s.log, s.submitted[i]) { DroppedElsewhere(g, run, acts, n, x, s.submitted[i]); }
    }
    UpheldWhole(g, s.log, s.submitted);
  }

  lemma {:induction false} ReqInRange(g: Geo, r: Req)
    requires g.Valid() && ValidReq(g, r)
    ensures StripeOf(g, r) < g.Stripes()
  {
    StripeOfAddress(g, r.off);
  }

  lemma {:induction false} UpheldWhole(g: Geo, log: seq<Completion>, rs: seq<Req>)
    requires g.Valid() && forall i | 0 <= i < |rs| :: !Dropped(g, log, rs[i])
    ensures Upheld(g, log, rs) == rs
    decreases |rs|
  {
    hide Dropped;
    if |rs| > 0 { UpheldWhole(g, log, rs[..|rs| - 1]); }
  }

  lemma {:induction false} QuietNotWritten(s: State, stripe: nat)
    requires Quiet(s)
    ensures !BeingWritten(s, stripe)
  {
    if t: nat :| BusyOn(s, stripe, t) {
      assert Live(s, t);
    }
  }

  /** Flat arrays that agree on every stripe agree. */
  lemma {:induction false} SameByStripes(g: Geo, a: Bytes, b: Bytes)
    requires g.Valid() && FlatOk(g, a) && FlatOk(g, b)
    requires forall stripe: nat | stripe < g.Stripes() :: StripeBytes(g, a, stripe) == StripeBytes(g, b, stripe)
    ensures a == b
  {
    hide StripeBytes;
    forall x | 0 <= x < g.Capacity()
      ensures a[x] == b[x]
    {
      SameByte(g, a, b, x);
    }
  }

  lemma {:induction false} SameByte(g: Geo, a: Bytes, b: Bytes, x: nat)
    requires g.Valid() && FlatOk(g, a) && FlatOk(g, b) && x < g.Capacity()
    requires forall stripe: nat | stripe < g.Stripes() :: StripeBytes(g, a, stripe) == StripeBytes(g, b, stripe)
    ensures a[x] == b[x]
  {
    hide Geo.First, Geo.StripeLen, Geo.StripeIdx, Geo.StripeOff, Geo.Stripes, StripeBytes;
    StripeOfAddress(g, x);
    UnitPlace(g, x);
    StripeBytesAt(g, a, g.StripeIdx(x), g.StripeOff(x), x);
    StripeBytesAt(g, b, g.StripeIdx(x), g.StripeOff(x), x);
  }

  lemma {:induction false} UnitPlace(g: Geo, x: nat)
    requires g.Valid()
    ensures x == g.First(g.StripeIdx(x)) + g.StripeOff(x) && g.StripeOff(x) < g.StripeLen()
  {
  }

  /** As long as anything is under way, some step other than a new request or a failing disk can
      be taken: the array never deadlocks. */
  lemma {:induction false} NeverStuck(g: Geo, run: seq<State>, acts: seq<Action>, n: nat) returns (a: Action)
    requires g.Valid() && IsRun(g, run, acts) && n < |run| && !Quiet(run[n])
    ensures Enabled(g, run[n], a) && !a.Submit? && !a.Die?
    ensures forall x: nat :: Benign(g, run[n], a, x) && !Strains(g, run[n], a, x) && Spares(g, run[n], a, x)
  {
    RunInv(g, run, acts, n);
    var s := run[n];
    hide IsRun, Orderly, StripeOf, ValidReq, Benign, Strains, Spares;
    if w :| 0 <= w < |s.ring| && s.ring[w] != [] {
      a := Deliver(w);
      Harmless(g, s, a);
    } else if w :| 0 <= w < |s.runq| && s.runq[w] != [] {
      a := Poll(w);
      Harmless(g, s, a);
    } else {
      var t: nat :| Live(s, t);
      a := DrainerStep(g, s, t);
    }
  }

  /** A step other than a child I/O or a death puts no data at risk. */
  lemma {:induction false} Harmless(g: Geo, s: State, a: Action)
    requires g.Valid() && Enabled(g, s, a) && !a.Effect? && !a.Die?
    ensures forall x: nat :: Benign(g, s, a, x) && !Strains(g, s, a, x) && Spares(g, s, a, x)
  {
  }

  lemma {:induction false} DrainerStep(g: Geo, s: State, t: nat) returns (a: Action)
    requires g.Valid() && Inv(g, s) && Live(s, t)
    ensures Enabled(g, s, a) && (a.Dequeue? || a.Effect? || a.Advance?)
    ensures forall x: nat :: Benign(g, s, a, x) && !Strains(g, s, a, x) && Spares(g, s, a, x)
  {
    hide Orderly, StripeOf, ValidReq, PhaseOk;
    if s.tasks[t].pc.AtDequeue? {
      a := Dequeue(t);
    } else if i :| 0 <= i < |s.tasks[t].pc.ios| && s.tasks[t].pc.ios[i].out.Pending? {
      var io := s.tasks[t].pc.ios[i];
      a := Effect(t, i, s.dead != Some(io.disk), Zeros(io.len));
      PendingInRange(g, s, t, i);
    } else {
      a := Advance(t);
    }
  }

  lemma {:induction false} PendingInRange(g: Geo, s: State, t: nat, i: nat)
    requires g.Valid() && Inv(g, s) && t < |s.tasks| && s.tasks[t].pc.Busy? && i < |s.tasks[t].pc.ios|
    ensures InRange(s, s.tasks[t].pc.ios[i])
  {
    hide Orderly, PhaseOk;
    BusyEntry(g, s, t);
    StripeInside(g, s.tasks[t].stripe);
  }

  // Early stops.

  /** Only the writes of a request in its last phase change disks, and only rows of its stripe;
      whatever fails. */
  lemma {:induction false} OnlyWritersWrite(g: Geo, s: State, a: Action, stripe: nat)
    requires g.Valid() && Inv(g, s) && Enabled(g, s, a) && stripe < g.Stripes()
    ensures DisksOk(g, s.disks) && DisksOk(g, Next(g, s, a).disks)
    ensures Rows(g, Next(g, s, a).disks, stripe) != Rows(g, s.disks, stripe) ==>
              a.Effect? && BusyOn(s, stripe, a.t) && s.tasks[a.t].pc.phase.WriteWait?
  {
    if a.Effect? {
      EffectWrites(g, s, a.t, a.i, a.ok, a.junk, stripe);
    } else {
      hide Inv, Rows, Next, Enabled;
      InvDisks(g, s);
      QuietDisks(g, s, a);
    }
  }

  lemma {:induction false} QuietDisks(g: Geo, s: State, a: Action)
    requires g.Valid() && Enabled(g, s, a) && !a.Effect?
    ensures Next(g, s, a).disks == s.disks
  {
    hide Enqueued, Dequeued, Begin, Resume, StripeOf, ValidReq;
  }

  lemma {:induction false} EffectWrites(g: Geo, s: State, t: nat, i: nat, ok: bool, junk: Bytes, stripe: nat)
    requires g.Valid() && Inv(g, s) && Enabled(g, s, Effect(t, i, ok, junk)) && stripe < g.Stripes()
    ensures DisksOk(g, s.disks) && DisksOk(g, EffectStep(g, s, t, i, ok, junk).disks)
    ensures Rows(g, EffectStep(g, s, t, i, ok, junk).disks, stripe) != Rows(g, s.disks, stripe) ==>
              BusyOn(s, stripe, t) && s.tasks[t].pc.phase.WriteWait?
  {
    hide Orderly, Rows, PhaseOk, Splice, StripeOf;
    BusyEntry(g, s, t);
    var io := s.tasks[t].pc.ios[i];
    StripeInside(g, s.tasks[t].stripe);
    assert IoOk(g, s.tasks[t].stripe, io, s.tasks[t].pc.phase.WriteWait?);
    if io.dir.Out? {
      RowsWritten(g, s.disks, s.tasks[t].stripe, io.disk, io.lo, if ok then io.dir.data else junk, stripe);
    }
  }

  /** Task t drains its stripe from state m to state n, and never gets to writing. */
  ghost predicate NeverWrites(run: seq<State>, t: nat, stripe: nat, m: nat, n: nat)
    requires m <= n < |run|
  {
    forall i | m <= i < n ::
      Live(run[i], t) && run[i].tasks[t].stripe == stripe
      && (run[i].tasks[t].pc.Busy? ==> !run[i].tasks[t].pc.phase.WriteWait?)
  }

  /** A request that ends before its write phase, for whatever reason, has changed no byte of
      its stripe on any disk. */
  lemma {:induction false} EarlyStopChangesNothing(g: Geo, run: seq<State>, acts: seq<Action>, t: nat, stripe: nat,
                                                   m: nat, n: nat)
    requires g.Valid() && IsRun(g, run, acts) && m <= n < |run| && stripe < g.Stripes()
    requires NeverWrites(run, t, stripe, m, n)
    ensures DisksOk(g, run[m].disks) && DisksOk(g, run[n].disks)
    ensures Rows(g, run[n].disks, stripe) == Rows(g, run[m].disks, stripe)
    decreases n
  {
    hide Inv, Next, Rows, Enabled, Initial, DisksOk, Live;
    RunInv(g, run, acts, n);
    assert DisksOk(g, run[n].disks) by { InvDisks(g, run[n]); }
    if m < n {
      RunInv(g, run, acts, n - 1);
      EarlyStopChangesNothing(g, run, acts, t, stripe, m, n - 1);
      StepChangesNothing(g, run[n - 1], acts[n - 1], t, stripe);
    }
  }

  lemma {:induction false} InvDisks(g: Geo, s: State)
    requires g.Valid() && Inv(g, s)
    ensures DisksOk(g, s.disks)
  {
  }

  lemma {:induction false} StepChangesNothing(g: Geo, s: State, a: Action, t: nat, stripe: nat)
    requires g.Valid() && Inv(g, s) && Enabled(g, s, a) && stripe < g.Stripes()
    requires Live(s, t) && s.tasks[t].stripe == stripe && (s.tasks[t].pc.Busy? ==> !s.tasks[t].pc.phase.WriteWait?)
    ensures DisksOk(g, s.disks) && DisksOk(g, Next(g, s, a).disks)
    ensures Rows(g, Next(g, s, a).disks, stripe) == Rows(g, s.disks, stripe)
  {
    hide Inv, Next, Rows, Enabled;
    OnlyWritersWrite(g, s, a, stripe);
    if a.Effect? && BusyOn(s, stripe, a.t) {
      DrainersDiffer(g, s, t, a.t);
    }
  }

  // What a write reports.

  /** A write that gets to writing after a disk died reports failure exactly when it has to
      update that disk, as data or as parity; with no disk dead, never. Either way it takes
      effect. */
  lemma {:induction false} WriteFailsIff(g: Geo, run: seq<State>, acts: seq<Action>, n: nat, i: nat, x: nat)
    requires g.Valid() && IsRun(g, run, acts) && n < |run| && x < g.Stripes() && BenignRun(g, run, acts, x)
    requires i < |run[n].log| && StripeOf(g, run[n].log[i].req) == x && run[n].log[i].wrote.Some?
    ensures var c := run[n].log[i];
            && (c.began.Some? ==> (c.status == Failure <==> Touches(g, c.req, c.began.value)))
            && (run[n].dead.None? ==> c.status == Success)
  {
    hide IsRun, BenignRun, Touches, Undivided, Logical, Replay, Upheld;
    Linearizable(g, run, acts, n, i, x);
  }
}
