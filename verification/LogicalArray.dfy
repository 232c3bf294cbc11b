/** The array as read through the address map, with a dead disk's bytes taken as the
    exclusive-or of the others; and when disks hold a given stripe. */
module LogicalArray {
  import opened XorAlgebra
  import opened Geometry
  import opened Parity
  import opened StripeQueues
  import opened Raid5Data
  import opened Raid5Refinement

  /** One row of bytes across the disks. */
  function RowColumn(disks: seq<Bytes>, row: nat): (c: Bytes)
    requires forall d | 0 <= d < |disks| :: row < |disks[d]|
    ensures |c| == |disks| && forall d | 0 <= d < |disks| :: c[d] == disks[d][row]
  {
    if |disks| == 0 then [] else RowColumn(disks[..|disks| - 1], row) + [disks[|disks| - 1][row]]
  }

  /** The byte at a row of a disk, from the other disks if that one is dead. */
  function ByteOn(disks: seq<Bytes>, dead: Option<nat>, disk: nat, row: nat): bv8
    requires disk < |disks| && forall d | 0 <= d < |disks| :: row < |disks[d]|
  {
    if dead == Some(disk) then XorSeq(Without(RowColumn(disks, row), disk)) else disks[disk][row]
  }

  /** Logical byte `a` as a reader gets it. */
  function ByteAt(g: Geo, disks: seq<Bytes>, dead: Option<nat>, a: nat): bv8
    requires g.Valid() && DisksOk(g, disks) && a < g.Capacity()
  {
    LocateInverse(g, a);
    ByteOn(disks, dead, g.Locate(a).0, g.Locate(a).1)
  }

  function LogicalUpTo(g: Geo, disks: seq<Bytes>, dead: Option<nat>, n: nat): (flat: Bytes)
    requires g.Valid() && DisksOk(g, disks) && n <= g.Capacity()
    ensures |flat| == n && forall a | 0 <= a < n :: flat[a] == ByteAt(g, disks, dead, a)
  {
    if n == 0 then [] else LogicalUpTo(g, disks, dead, n - 1) + [ByteAt(g, disks, dead, n - 1)]
  }

  /** The whole logical array. */
  function Logical(g: Geo, disks: seq<Bytes>, dead: Option<nat>): (flat: Bytes)
    requires g.Valid() && DisksOk(g, disks)
    ensures FlatOk(g, flat) && forall a | 0 <= a < g.Capacity() :: flat[a] == ByteAt(g, disks, dead, a)
  {
    LogicalUpTo(g, disks, dead, g.Capacity())
  }

  /** Every row of a stripe cancels out. */
  ghost predicate StripeCancels(g: Geo, disks: seq<Bytes>, stripe: nat)
    requires g.Valid() && DisksOk(g, disks) && stripe < g.Stripes()
  {
    XorAll(Rows(g, disks, stripe), g.strip) == Zeros(g.strip)
  }

  /** Rows base, base + 1, ... cancel out. */
  ghost predicate ZeroColumns(disks: seq<Bytes>, base: nat, len: nat)
    requires forall d | 0 <= d < |disks| :: base + len <= |disks[d]|
  {
    forall row | base <= row < base + len :: XorSeq(RowColumn(disks, row)) == 0
  }

  /** Parity is consistent all over the usable rows. */
  ghost predicate RowsCancel(g: Geo, disks: seq<Bytes>)
    requires g.Valid() && DisksOk(g, disks)
  {
    ZeroColumns(disks, 0, g.Usable())
  }

  lemma {:induction false} ColumnOfRows(g: Geo, disks: seq<Bytes>, stripe: nat, o: nat)
    requires g.Valid() && DisksOk(g, disks) && stripe < g.Stripes() && o < g.strip
    ensures g.Base(stripe) + o < g.Usable() <= g.child
    ensures Column(Rows(g, disks, stripe), g.strip, o) == RowColumn(disks, g.Base(stripe) + o)
    ensures forall d | 0 <= d < g.ndisks :: Rows(g, disks, stripe)[d][o] == disks[d][g.Base(stripe) + o]
  {
    hide Rows;
    StripeInside(g, stripe);
    forall d | 0 <= d < g.ndisks
      ensures Rows(g, disks, stripe)[d][o] == disks[d][g.Base(stripe) + o]
    {
      RowAt(g, disks, stripe, d);
    }
  }

  /** A stripe cancels out exactly when each of its rows does. */
  lemma {:induction false} CancelByRow(g: Geo, disks: seq<Bytes>, stripe: nat)
    requires g.Valid() && DisksOk(g, disks) && stripe < g.Stripes()
    ensures g.Base(stripe) + g.strip <= g.child
    ensures StripeCancels(g, disks, stripe) <==> ZeroColumns(disks, g.Base(stripe), g.strip)
  {
    hide Rows, XorAll, XorSeq, Column, RowColumn, Geo.Base, Geo.Capacity, Geo.Usable, Geo.Stripes, Geo.StripeLen;
    StripeInside(g, stripe);
    var all, base := XorAll(Rows(g, disks, stripe), g.strip), g.Base(stripe);
    forall row | base <= row < base + g.strip
      ensures all[row - base] == XorSeq(RowColumn(disks, row))
    {
      ColumnOfRows(g, disks, stripe, row - base);
      XorAllAt(Rows(g, disks, stripe), g.strip, row - base);
    }
    ZeroRows(disks, all, base);
  }

  lemma {:induction false} ZeroRows(disks: seq<Bytes>, all: Bytes, base: nat)
    requires forall d | 0 <= d < |disks| :: base + |all| <= |disks[d]|
    requires forall row | base <= row < base + |all| :: all[row - base] == XorSeq(RowColumn(disks, row))
    ensures all == Zeros(|all|) ==> ZeroColumns(disks, base, |all|)
    ensures ZeroColumns(disks, base, |all|) ==> all == Zeros(|all|)
  {
    hide XorSeq, RowColumn;
    if all == Zeros(|all|) {
      forall row | base <= row < base + |all|
        ensures XorSeq(RowColumn(disks, row)) == 0
      {
        assert all[row - base] == Zeros(|all|)[row - base];
      }
    }
    if ZeroColumns(disks, base, |all|) {
      forall o | 0 <= o < |all|
        ensures all[o] == 0
      {
        assert XorSeq(RowColumn(disks, base + o)) == all[base + o - base];
      }
      assert all == Zeros(|all|);
    }
  }

  /** Parity is consistent when, and only when, every stripe cancels out. */
  lemma {:induction false} CancelByStripe(g: Geo, disks: seq<Bytes>)
    requires g.Valid() && DisksOk(g, disks)
    ensures RowsCancel(g, disks) <==> forall stripe | 0 <= stripe < g.Stripes() :: StripeCancels(g, disks, stripe)
  {
    hide StripeCancels, XorSeq, RowColumn;
    if RowsCancel(g, disks) {
      forall stripe | 0 <= stripe < g.Stripes()
        ensures StripeCancels(g, disks, stripe)
      {
        StripeInside(g, stripe);
        CancelByRow(g, disks, stripe);
      }
    }
    if forall stripe | 0 <= stripe < g.Stripes() :: StripeCancels(g, disks, stripe) {
      forall row | 0 <= row < g.Usable()
        ensures XorSeq(RowColumn(disks, row)) == 0
      {
        var stripe := row / g.strip;
        DivBound(row, g.Stripes(), g.strip);
        assert row == g.Base(stripe) + row % g.strip;
        CancelByRow(g, disks, stripe);
      }
    }
  }

  lemma {:induction false} StripeBytesAt(g: Geo, flat: Bytes, stripe: nat, q: nat, a: nat)
    requires g.Valid() && FlatOk(g, flat) && stripe < g.Stripes() && q < g.StripeLen()
    requires a == g.First(stripe) + q
    ensures a < g.Capacity() && StripeBytes(g, flat, stripe)[q] == flat[a]
  {
    hide Geo.First, Geo.StripeLen, Geo.Capacity, Geo.Stripes;
    StripeRange(g, stripe);
  }

  /** Byte q of a stripe's logical bytes, through the disks. */
  lemma {:induction false} StripeByte(g: Geo, disks: seq<Bytes>, dead: Option<nat>, stripe: nat, j: nat, o: nat, q: nat)
    requires g.Valid() && DisksOk(g, disks) && stripe < g.Stripes() && j < g.ndisks - 1 && o < g.strip
    requires q == j * g.strip + o
    ensures q < g.StripeLen() && DataDisk(j, g.Parity(stripe)) < g.ndisks && g.Base(stripe) + o < g.child
    ensures StripeBytes(g, Logical(g, disks, dead), stripe)[q]
            == ByteOn(disks, dead, DataDisk(j, g.Parity(stripe)), g.Base(stripe) + o)
  {
    hide Logical, StripeBytes, ByteAt, ByteOn, Geo.First, Geo.StripeLen, Geo.Base, Geo.Capacity, Geo.Stripes;
    PlaceAt(g, stripe, j, o);
    var a := g.First(stripe) + q;
    StripeBytesAt(g, Logical(g, disks, dead), stripe, q, a);
    UnitByte(g, disks, dead, stripe, j, o, q, a);
  }

  lemma {:induction false} UnitByte(g: Geo, disks: seq<Bytes>, dead: Option<nat>, stripe: nat, j: nat, o: nat, q: nat,
                                    a: nat)
    requires g.Valid() && DisksOk(g, disks) && stripe < g.Stripes() && j < g.ndisks - 1 && o < g.strip
    requires q == j * g.strip + o && a == g.First(stripe) + q
    ensures a < g.Capacity() && DataDisk(j, g.Parity(stripe)) < g.ndisks && g.Base(stripe) + o < g.child
    ensures ByteAt(g, disks, dead, a) == ByteOn(disks, dead, DataDisk(j, g.Parity(stripe)), g.Base(stripe) + o)
  {
    hide ByteOn;
    StripeInside(g, stripe);
    LocateUnit(g, stripe, j, o);
  }

  /** Data strip j of a stripe's logical bytes is what its living disk holds. */
  lemma {:induction false} LivingStrip(g: Geo, disks: seq<Bytes>, dead: Option<nat>, stripe: nat, j: nat, p: nat)
    requires g.Valid() && DisksOk(g, disks) && stripe < g.Stripes() && j < g.ndisks - 1 && p == g.Parity(stripe)
    requires dead != Some(DataDisk(j, p))
    ensures DataDisk(j, p) < g.ndisks && |StripeBytes(g, Logical(g, disks, dead), stripe)| == (g.ndisks - 1) * g.strip
    ensures Expected(StripeBytes(g, Logical(g, disks, dead), stripe), g.strip, g.ndisks, p)[DataDisk(j, p)]
            == Rows(g, disks, stripe)[DataDisk(j, p)]
  {
    hide Logical, Rows, StripeBytes, Expected, Geo.Base, Geo.Parity, Geo.Stripes, Geo.Capacity;
    var d, bytes := DataDisk(j, p), StripeBytes(g, Logical(g, disks, dead), stripe);
    ExpectedData(bytes, g.strip, g.ndisks, p, j);
    forall o | 0 <= o < g.strip
      ensures Expected(bytes, g.strip, g.ndisks, p)[d][o] == Rows(g, disks, stripe)[d][o]
    {
      StripeByte(g, disks, dead, stripe, j, o, j * g.strip + o);
      ColumnOfRows(g, disks, stripe, o);
    }
  }

  /** What disks hold of a stripe, whether its parity is consistent or not. */
  function Found(g: Geo, disks: seq<Bytes>, stripe: nat): (fs: Stripe)
    requires g.Valid() && DisksOk(g, disks) && stripe < g.Stripes()
    ensures Whole(g, fs)
  {
    Stripe(StripeBytes(g, Logical(g, disks, None), stripe), XorAll(Rows(g, disks, stripe), g.strip))
  }

  /** Disks hold exactly the strips, and the parity with its skew, of what is found on them. */
  lemma {:induction false} FoundMatches(g: Geo, disks: seq<Bytes>, stripe: nat)
    requires g.Valid() && DisksOk(g, disks) && stripe < g.Stripes()
    ensures Matches(Rows(g, disks, stripe), None, Exp(g, stripe, Found(g, disks, stripe)))
  {
    hide Logical, Rows, StripeBytes, Exp, Expected, XorAll, Found;
    var p, rows, fs := g.Parity(stripe), Rows(g, disks, stripe), Found(g, disks, stripe);
    var exp := Exp(g, stripe, fs);
    ExpIs(g, stripe, fs);
    assert fs.bytes == StripeBytes(g, Logical(g, disks, None), stripe) && fs.skew == XorAll(rows, g.strip) by {
      FoundIs(g, disks, stripe);
    }
    forall d | 0 <= d < g.ndisks && d != p
      ensures rows[d] == exp[d]
    {
      LivingStrip(g, disks, None, stripe, DataStrip(d, p), p);
      assert DataDisk(DataStrip(d, p), p) == d;
    }
    assert Without(rows, p) == Without(exp, p);
    ExpectedSkew(g, stripe, fs);
    SameLast(rows, exp, g.strip, p);
  }

  lemma {:induction false} FoundIs(g: Geo, disks: seq<Bytes>, stripe: nat)
    requires g.Valid() && DisksOk(g, disks) && stripe < g.Stripes()
    ensures Found(g, disks, stripe).bytes == StripeBytes(g, Logical(g, disks, None), stripe)
    ensures Found(g, disks, stripe).skew == XorAll(Rows(g, disks, stripe), g.strip)
  {
  }

  /** Strips that agree but for one, and in their exclusive-or, agree. */
  lemma {:induction false} SameLast(a: seq<Bytes>, b: seq<Bytes>, len: nat, k: nat)
    requires Uniform(a, len) && Uniform(b, len) && k < |a| == |b| && Without(a, k) == Without(b, k)
    requires XorAll(a, len) == XorAll(b, len)
    ensures a[k] == b[k]
  {
    hide XorAll, XorBytes;
    XorAllSplit(a, len, k);
    XorAllSplit(b, len, k);
    var rest := XorAll(Without(a, k), len);
    forall o | 0 <= o < len
      ensures a[k][o] == b[k][o]
    {
      SameXor(rest[o], a[k][o], b[k][o]);
    }
  }

  lemma {:induction false} SameXor(r: bv8, a: bv8, b: bv8)
    ensures r ^ a == r ^ b <==> a == b
  {
  }

  /** The strips of a stripe with its parity: their exclusive-or is the parity's skew; if there is
      none, each is the exclusive-or of the others. */
  lemma {:induction false} ExpectedSkew(g: Geo, stripe: nat, fs: Stripe)
    requires g.Valid() && Whole(g, fs)
    ensures XorAll(Exp(g, stripe, fs), g.strip) == fs.skew
    ensures Straight(g, fs) ==>
              forall d | 0 <= d < g.ndisks ::
                Uniform(Without(Exp(g, stripe, fs), d), g.strip)
                && XorAll(Without(Exp(g, stripe, fs), d), g.strip) == Exp(g, stripe, fs)[d]
  {
    hide XorAll, Zeros, Chunks, XorBytes;
    var p := g.Parity(stripe);
    var e := Expected(fs.bytes, g.strip, g.ndisks, p);
    AnyStripFromOthers(Chunks(fs.bytes, g.strip, g.ndisks - 1), g.strip, p, p);
    XorAllUpdate(e, g.strip, p, XorBytes(e[p], fs.skew));
    XorSkewed(e[p], fs.skew);
    if Straight(g, fs) {
      ExpIs(g, stripe, fs);
      forall d | 0 <= d < g.ndisks
        ensures Uniform(Without(e, d), g.strip) && XorAll(Without(e, d), g.strip) == e[d]
      {
        AnyStripFromOthers(Chunks(fs.bytes, g.strip, g.ndisks - 1), g.strip, p, d);
      }
    }
  }

  lemma {:induction false} XorSkewed(a: Bytes, skew: Bytes)
    requires |a| == |skew|
    ensures XorBytes(XorBytes(Zeros(|a|), a), XorBytes(a, skew)) == skew
  {
  }

  /** A reader of disks that match a stripe, one of them perhaps dead, gets the stripe's bytes. */
  lemma {:induction false} MatchesLogical(g: Geo, disks: seq<Bytes>, dead: Option<nat>, stripe: nat, fs: Stripe)
    requires g.Valid() && DisksOk(g, disks) && stripe < g.Stripes() && Whole(g, fs) && Safe(g, stripe, dead, fs)
    requires Matches(Rows(g, disks, stripe), dead, Exp(g, stripe, fs))
    ensures StripeBytes(g, Logical(g, disks, dead), stripe) == fs.bytes
    ensures dead.None? ==> XorAll(Rows(g, disks, stripe), g.strip) == fs.skew
  {
    hide Logical, Rows, StripeBytes, Exp, Matches, Straight, Geo.Base, Geo.Capacity, Geo.Stripes, DisksOk, XorAll;
    var got := StripeBytes(g, Logical(g, disks, dead), stripe);
    forall q | 0 <= q < g.StripeLen()
      ensures got[q] == fs.bytes[q]
    {
      OffsetParts(g, q);
      MatchesByte(g, disks, dead, stripe, fs, q / g.strip, q % g.strip, q);
    }
    if dead.None? {
      AllMatch(Rows(g, disks, stripe), Exp(g, stripe, fs));
      ExpectedSkew(g, stripe, fs);
    }
  }

  lemma {:induction false} AllMatch(rows: seq<Bytes>, exp: seq<Bytes>)
    requires Matches(rows, None, exp)
    ensures rows == exp
  {
  }

  /** A byte on a data disk of a stripe that matches. */
  lemma {:induction false} MatchedByte(g: Geo, disks: seq<Bytes>, dead: Option<nat>, stripe: nat, fs: Stripe, j: nat,
                                       o: nat, q: nat, p: nat)
    requires g.Valid() && DisksOk(g, disks) && stripe < g.Stripes() && Whole(g, fs) && p == g.Parity(stripe)
    requires j < g.ndisks - 1 && o < g.strip && q == j * g.strip + o
    requires Matches(Rows(g, disks, stripe), dead, Exp(g, stripe, fs))
    ensures q < g.StripeLen() && DataDisk(j, p) < g.ndisks && g.Base(stripe) + o < g.child
    ensures Exp(g, stripe, fs)[DataDisk(j, p)][o] == fs.bytes[q]
    ensures dead != Some(DataDisk(j, p)) ==> disks[DataDisk(j, p)][g.Base(stripe) + o] == fs.bytes[q]
  {
    hide Rows, Exp, Expected, Geo.Parity, Geo.Stripes, Geo.StripeLen, Geo.Base, Geo.Place;
    DataStripIs(g, stripe, fs, DataDisk(j, p));
    ExpectedData(fs.bytes, g.strip, g.ndisks, p, j);
    PlaceAt(g, stripe, j, o);
    ColumnOfRows(g, disks, stripe, o);
  }

  lemma {:induction false} MatchesByte(g: Geo, disks: seq<Bytes>, dead: Option<nat>, stripe: nat, fs: Stripe, j: nat,
                                       o: nat, q: nat)
    requires g.Valid() && DisksOk(g, disks) && stripe < g.Stripes() && Whole(g, fs) && Safe(g, stripe, dead, fs)
    requires j < g.ndisks - 1 && o < g.strip && q == j * g.strip + o
    requires Matches(Rows(g, disks, stripe), dead, Exp(g, stripe, fs))
    ensures q < g.StripeLen() && StripeBytes(g, Logical(g, disks, dead), stripe)[q] == fs.bytes[q]
  {
    hide Logical, Rows, StripeBytes, Exp, XorAll, XorSeq, Column, RowColumn, Straight, Geo.Parity, Geo.Base,
        Geo.StripeLen;
    var d, exp := DataDisk(j, g.Parity(stripe)), Exp(g, stripe, fs);
    StripeByte(g, disks, dead, stripe, j, o, q);
    MatchedByte(g, disks, dead, stripe, fs, j, o, q, g.Parity(stripe));
    ColumnOfRows(g, disks, stripe, o);
    if dead == Some(d) {
      ExpectedSkew(g, stripe, fs);
      XorAllAt(Without(exp, d), g.strip, o);
      assert Column(Without(exp, d), g.strip, o) == Without(RowColumn(disks, g.Base(stripe) + o), d);
    }
  }

  /** Should data disk d of a stripe be lost, the byte rebuilt for it is right exactly if the
      parity of that row was consistent. */
  lemma {:induction false} RebuiltByteIff(g: Geo, disks: seq<Bytes>, stripe: nat, fs: Stripe, j: nat, o: nat, q: nat)
    requires g.Valid() && DisksOk(g, disks) && stripe < g.Stripes() && Whole(g, fs)
    requires j < g.ndisks - 1 && o < g.strip && q == j * g.strip + o
    requires Matches(Rows(g, disks, stripe), None, Exp(g, stripe, fs))
    ensures q < g.StripeLen() && DataDisk(j, g.Parity(stripe)) < g.ndisks && g.Base(stripe) + o < g.child
    ensures var d, row := DataDisk(j, g.Parity(stripe)), g.Base(stripe) + o;
            ByteOn(disks, Some(d), d, row) == fs.bytes[q] <==> fs.skew[o] == 0
  {
    hide Rows, Exp, XorAll, XorSeq, Column, RowColumn, Geo.Parity, Geo.Base, Geo.StripeLen;
    var d, row := DataDisk(j, g.Parity(stripe)), g.Base(stripe) + o;
    MatchedByte(g, disks, None, stripe, fs, j, o, q, g.Parity(stripe));
    ColumnOfRows(g, disks, stripe, o);
    AllMatch(Rows(g, disks, stripe), Exp(g, stripe, fs));
    ExpectedSkew(g, stripe, fs);
    XorAllAt(Rows(g, disks, stripe), g.strip, o);
    XorRemove(RowColumn(disks, row), d);
    XorZero(XorSeq(Without(RowColumn(disks, row), d)), disks[d][row]);
  }
}
