/** Address arithmetic of the array: stripes, rotating parity, strip and row numbers.
    All lengths are counted in one unit, which may be blocks (as the driver does) or
    bytes (as the byte-level machine does): see Strips.SplitScales. */
module Geometry {

  lemma {:induction false} MulMono(a: nat, b: nat, k: nat)
    requires a <= b
    ensures a * k <= b * k
  {
  }

  lemma {:induction false} MulGap(a: nat, b: nat, k: nat)
    requires a < b
    ensures a * k + k <= b * k
  {
    MulMono(a + 1, b, k);
  }

  lemma {:induction false} QuotientUnique(b: nat, q: nat, r: nat, q': nat, r': nat)
    requires r < b && r' < b && q * b + r == q' * b + r'
    ensures q == q' && r == r'
  {
    if q < q' {
      MulGap(q, q', b);
    } else if q' < q {
      MulGap(q', q, b);
    }
  }

  lemma {:induction false} DivModUnique(q: nat, b: nat, r: nat)
    requires r < b
    ensures (q * b + r) / b == q && (q * b + r) % b == r
  {
    QuotientUnique(b, q, r, (q * b + r) / b, (q * b + r) % b);
  }

  /** A remainder stays inside the product: j < m and o < k give j*k + o < m*k. */
  lemma {:induction false} MulBound(j: nat, m: nat, k: nat, o: nat)
    requires j < m && o < k
    ensures j * k + o < m * k && (j + 1) * k <= m * k
  {
  }

  lemma {:induction false} DivBound(a: nat, m: nat, k: nat)
    requires k > 0 && a < m * k
    ensures a / k < m
  {
  }

  /** Byte i of unit a, in units of k bytes. */
  lemma {:induction false} ScaleByte(a: nat, b: nat, k: nat, i: nat)
    requires b > 0 && i < k
    ensures b * k > 0 && (a * k + i) / (b * k) == a / b && (a * k + i) % (b * k) == (a % b) * k + i
  {
    var q, r := a / b, a % b;
    assert a == q * b + r;
    MulMono(r + 1, b, k);
    assert a * k + i == q * (b * k) + (r * k + i) by {
      assert (q * b + r) * k == q * b * k + r * k;
      assert q * b * k == q * (b * k);
    }
    DivModUnique(q, b * k, r * k + i);
  }

  lemma {:induction false} ScaleDivMod(a: nat, b: nat, k: nat)
    requires b > 0 && k > 0
    ensures b * k > 0 && (a * k) / (b * k) == a / b && (a * k) % (b * k) == (a % b) * k
  {
    ScaleByte(a, b, k, 0);
  }

  /** The disk that holds data strip `strip_idx` of a stripe whose parity is on `parity`. */
  function DataDisk(strip: nat, parity: nat): nat {
    if strip < parity then strip else strip + 1
  }

  /** The data strip kept on a non-parity disk. */
  function DataStrip(disk: nat, parity: nat): nat
    requires disk != parity
  {
    if disk < parity then disk else disk - 1
  }

  datatype Geo = Geo(ndisks: nat, strip: nat, child: nat, workers: nat) {
    predicate Valid() { ndisks >= 3 && strip >= 1 && workers >= 1 }

    function StripeLen(): (r: nat)
      requires Valid()
      ensures r >= strip > 0
    {
      MulMono(1, ndisks - 1, strip);
      (ndisks - 1) * strip
    }

    function Stripes(): nat
      requires Valid()
    {
      child / strip
    }

    /** The rows of a child disk that make whole strips. */
    function Usable(): (r: nat)
      requires Valid()
      ensures r <= child
    {
      child / strip * strip
    }

    /** What the array reports as its size. */
    function Capacity(): nat
      requires Valid()
    {
      (ndisks - 1) * Usable()
    }

    function StripeIdx(off: nat): nat
      requires Valid()
    {
      off / StripeLen()
    }

    function StripeOff(off: nat): nat
      requires Valid()
    {
      off % StripeLen()
    }

    function Owner(stripe: nat): (w: nat)
      requires Valid()
      ensures w < workers
    {
      stripe % workers
    }

    function Parity(stripe: nat): (d: nat)
      requires Valid()
      ensures d < ndisks
    {
      stripe % ndisks
    }

    /** First logical unit of a stripe. */
    function First(stripe: nat): nat
      requires Valid()
    {
      stripe * StripeLen()
    }

    /** First row, on every disk, of a stripe. */
    function Base(stripe: nat): nat
      requires Valid()
    {
      stripe * strip
    }

    /** Where the driver keeps logical unit `a`: a disk and a row of it. */
    function Locate(a: nat): (nat, nat)
      requires Valid()
    {
      Place(StripeIdx(a), StripeOff(a))
    }

    /** The same, from a stripe and an offset within it. */
    function Place(stripe: nat, q: nat): (nat, nat)
      requires Valid()
    {
      (DataDisk(q / strip, Parity(stripe)), Base(stripe) + q % strip)
    }

    /** The logical unit kept at a row of a disk that is not the row's parity disk. */
    function Unlocate(disk: nat, row: nat): nat
      requires Valid()
      requires disk != Parity(row / strip)
    {
      Unit(row / strip, DataStrip(disk, Parity(row / strip)), row % strip)
    }

    /** The logical unit at offset `o` of data strip `j` of a stripe. */
    function Unit(stripe: nat, j: nat, o: nat): nat
      requires Valid()
    {
      First(stripe) + (j * strip + o)
    }
  }

  lemma {:induction false} StripeDecompose(g: Geo, a: nat)
    requires g.Valid()
    ensures a == g.StripeIdx(a) * g.StripeLen() + g.StripeOff(a)
    ensures g.StripeOff(a) < g.StripeLen()
  {
  }

  // Independent descriptions of the layout.

  /** The next number of a cycle of n. */
  function Cycled(k: nat, n: nat): nat { if k + 1 == n then 0 else k + 1 }

  lemma {:induction false} ModCycles(s: nat, n: nat)
    requires n > 0
    ensures 0 % n == 0 && (s + 1) % n == Cycled(s % n, n)
  {
    var q, r := s / n, s % n;
    if r + 1 == n {
      assert s + 1 == (q + 1) * n + 0;
      DivModUnique(q + 1, n, 0);
    } else {
      assert s + 1 == q * n + (r + 1);
      DivModUnique(q, n, r + 1);
    }
    DivModUnique(0, n, 0);
  }

  /** Parity of the first stripe is on disk 0, that of each next one on the next disk in turn. */
  lemma {:induction false} ParityRotates(g: Geo, s: nat)
    requires g.Valid()
    ensures g.Parity(0) == 0 && g.Parity(s + 1) == Cycled(g.Parity(s), g.ndisks)
  {
    ModCycles(s, g.ndisks);
  }

  /** Stripes go to the workers in turn. */
  lemma {:induction false} OwnersInTurn(g: Geo, s: nat)
    requires g.Valid()
    ensures g.Owner(0) == 0 && g.Owner(s + 1) == Cycled(g.Owner(s), g.workers)
  {
    ModCycles(s, g.workers);
  }

  lemma {:induction false} ParityAfter(g: Geo, s: nat, k: nat)
    requires g.Valid() && k < g.ndisks
    ensures g.Parity(s + k)
            == if g.Parity(s) + k < g.ndisks then g.Parity(s) + k else g.Parity(s) + k - g.ndisks
    decreases k
  {
    hide Geo.Parity;
    if k > 0 {
      ParityAfter(g, s, k - 1);
      ParityRotates(g, s + (k - 1));
      assert s + (k - 1) + 1 == s + k;
    }
  }

  /** Among any ndisks consecutive stripes, each disk holds the parity of exactly one. */
  lemma {:induction false} ParityOncePerRound(g: Geo, s: nat, d: nat) returns (x: nat)
    requires g.Valid() && d < g.ndisks
    ensures s <= x < s + g.ndisks && forall y: nat | s <= y < s + g.ndisks :: g.Parity(y) == d <==> y == x
  {
    var p := g.Parity(s);
    hide Geo.Parity;
    x := if p <= d then s + d - p else s + d + g.ndisks - p;
    forall y: nat | s <= y < s + g.ndisks
      ensures g.Parity(y) == d <==> y == x
    {
      ParityAfter(g, s, y - s);
      assert s + (y - s) == y;
    }
  }

  /** Data strips lie on the disks other than the parity disk, in order. */
  lemma {:induction false} DataDisksInOrder(n: nat, p: nat, j: nat)
    requires p < n && j + 1 < n
    ensures DataDisk(j, p) < n && DataDisk(j, p) != p && DataStrip(DataDisk(j, p), p) == j
    ensures j + 2 < n ==> DataDisk(j, p) < DataDisk(j + 1, p)
  {
  }

  /** No more of the child disks could be used: less than a strip of each, and less than a stripe of
      the array, is left over. */
  lemma {:induction false} NothingMoreFits(g: Geo)
    requires g.Valid()
    ensures g.Usable() <= g.child < g.Usable() + g.strip
    ensures g.Capacity() <= (g.ndisks - 1) * g.child < g.Capacity() + g.StripeLen()
  {
    var n, left := g.ndisks - 1, g.child - g.Usable();
    assert g.child == g.Usable() + left && left < g.strip;
    assert n * g.child == n * g.Usable() + n * left;
    assert n * left < n * g.strip by { MulLess(left, g.strip, n); }
  }

  lemma {:induction false} MulLess(a: nat, b: nat, k: nat)
    requires a < b && k > 0
    ensures k * a < k * b
  {
  }

  /** Two units are in the same stripe exactly if no stripe begins between them. */
  lemma {:induction false} SameStripe(g: Geo, a: nat, b: nat)
    requires g.Valid() && a <= b
    ensures g.StripeIdx(b) == g.StripeIdx(a) <==> g.StripeOff(a) + (b - a) < g.StripeLen()
  {
    hide Geo.StripeLen;
    var len, q, r := g.StripeLen(), a / g.StripeLen(), a % g.StripeLen();
    assert a == q * len + r && b == b / len * len + b % len;
    if r + (b - a) < len {
      assert b == q * len + (r + (b - a));
      DivModUnique(q, len, r + (b - a));
    }
  }

  /** The reported size is a whole number of stripes. */
  lemma {:induction false} CapacityIsStripes(g: Geo)
    requires g.Valid()
    ensures g.Capacity() == g.Stripes() * g.StripeLen()
    ensures g.Usable() == g.Stripes() * g.strip
  {
  }

  /** A stripe that holds any logical unit lies wholly inside array and child disks. */
  lemma {:induction false} StripeInside(g: Geo, s: nat)
    requires g.Valid() && s < g.Stripes()
    ensures (s + 1) * g.StripeLen() <= g.Capacity()
    ensures g.Base(s) + g.strip <= g.Usable()
    ensures (s + 1) * g.StripeLen() == s * g.StripeLen() + g.StripeLen()
  {
    CapacityIsStripes(g);
    MulMono(s + 1, g.Stripes(), g.StripeLen());
    MulMono(s + 1, g.Stripes(), g.strip);
  }

  lemma {:induction false} StripeRange(g: Geo, s: nat)
    requires g.Valid() && s < g.Stripes()
    ensures g.First(s) + g.StripeLen() <= g.Capacity()
  {
    StripeInside(g, s);
  }

  lemma {:induction false} StripeOfAddress(g: Geo, a: nat)
    requires g.Valid() && a < g.Capacity()
    ensures g.StripeIdx(a) < g.Stripes()
  {
    CapacityIsStripes(g);
    DivBound(a, g.Stripes(), g.StripeLen());
  }

  /** Every logical unit lives on a data disk of its row, inside the usable part of the
      child, and can be found again from there. */
  lemma {:induction false} LocateInverse(g: Geo, a: nat)
    requires g.Valid() && a < g.Capacity()
    ensures var (disk, row) := g.Locate(a);
            && disk < g.ndisks && row < g.Usable()
            && disk != g.Parity(row / g.strip)
            && g.Unlocate(disk, row) == a
  {
    hide Geo.StripeIdx, Geo.StripeOff, Geo.StripeLen, Geo.First, Geo.Base, Geo.Place, Geo.Capacity, Geo.Stripes,
         Geo.Usable;
    var s, q := g.StripeIdx(a), g.StripeOff(a);
    StripeOfAddress(g, a);
    InStripe(g, a);
    var j, o := q / g.strip, q % g.strip;
    OffsetParts(g, q);
    PlaceAt(g, s, j, o);
    RowOfStripe(g, s, o);
    RowInUsable(g, s, o);
  }

  lemma {:induction false} InStripe(g: Geo, a: nat)
    requires g.Valid()
    ensures a == g.First(g.StripeIdx(a)) + g.StripeOff(a) && g.StripeOff(a) < g.StripeLen()
  {
  }

  lemma {:induction false} OffsetParts(g: Geo, q: nat)
    requires g.Valid() && q < g.StripeLen()
    ensures q / g.strip < g.ndisks - 1 && q % g.strip < g.strip && q == q / g.strip * g.strip + q % g.strip
  {
    DivBound(q, g.ndisks - 1, g.strip);
  }

  lemma {:induction false} RowInUsable(g: Geo, s: nat, o: nat)
    requires g.Valid() && s < g.Stripes() && o < g.strip
    ensures g.Base(s) + o < g.Usable()
  {
    StripeInside(g, s);
  }

  lemma {:induction false} RowOfStripe(g: Geo, s: nat, o: nat)
    requires g.Valid() && o < g.strip
    ensures (g.Base(s) + o) / g.strip == s && (g.Base(s) + o) % g.strip == o
  {
    DivModUnique(s, g.strip, o);
  }

  lemma {:induction false} UnitOfStripe(g: Geo, s: nat, q: nat)
    requires g.Valid() && q < g.StripeLen()
    ensures g.StripeIdx(g.First(s) + q) == s && g.StripeOff(g.First(s) + q) == q
  {
    DivModUnique(s, g.StripeLen(), q);
  }

  /** Unit o of data strip j of stripe s, placed. */
  lemma {:induction false} PlaceAt(g: Geo, s: nat, j: nat, o: nat)
    requires g.Valid() && j < g.ndisks - 1 && o < g.strip
    ensures j * g.strip + o < g.StripeLen()
    ensures g.Place(s, j * g.strip + o) == (DataDisk(j, g.Parity(s)), g.Base(s) + o)
  {
    MulBound(j, g.ndisks - 1, g.strip, o);
    DivModUnique(j, g.strip, o);
  }

  lemma {:induction false} UnitInside(g: Geo, s: nat, q: nat)
    requires g.Valid() && s < g.Stripes() && q < g.StripeLen()
    ensures g.First(s) + q < g.Capacity()
    ensures g.Locate(g.First(s) + q) == g.Place(s, q)
  {
    hide Geo.First, Geo.StripeLen, Geo.StripeIdx, Geo.StripeOff, Geo.Place, Geo.Stripes, Geo.Capacity;
    UnitOfStripe(g, s, q);
    StripeRange(g, s);
  }

  lemma {:induction false} LocateUnit(g: Geo, s: nat, j: nat, o: nat)
    requires g.Valid() && s < g.Stripes() && j < g.ndisks - 1 && o < g.strip
    ensures g.Unit(s, j, o) < g.Capacity()
    ensures g.Locate(g.Unit(s, j, o)) == (DataDisk(j, g.Parity(s)), g.Base(s) + o)
  {
    hide Geo.First, Geo.StripeLen, Geo.Locate, Geo.Place, Geo.Stripes, Geo.Capacity, Geo.Base;
    PlaceAt(g, s, j, o);
    UnitInside(g, s, j * g.strip + o);
  }

  /** Every data position of the usable rows is the home of one logical unit. */
  lemma {:induction false} UnlocateInverse(g: Geo, disk: nat, row: nat)
    requires g.Valid() && disk < g.ndisks && row < g.Usable()
    requires disk != g.Parity(row / g.strip)
    ensures g.Unlocate(disk, row) < g.Capacity()
    ensures g.Locate(g.Unlocate(disk, row)) == (disk, row)
  {
    var s, o := row / g.strip, row % g.strip;
    assert s < g.Stripes() by { DivBound(row, g.Stripes(), g.strip); }
    assert row == g.Base(s) + o;
    LocateUnit(g, s, DataStrip(disk, g.Parity(s)), o);
  }

  /** Rows of different stripes never meet, on any disk. */
  lemma {:induction false} StripesDisjoint(g: Geo, s: nat, s': nat, o: nat, o': nat)
    requires g.Valid() && s != s' && o < g.strip && o' < g.strip
    ensures g.Base(s) + o != g.Base(s') + o'
  {
    RowOfStripe(g, s, o);
    RowOfStripe(g, s', o');
  }

  /** The same array, its lengths counted in a unit k times smaller: blocks of k bytes in bytes. */
  function Scaled(g: Geo, k: nat): Geo {
    g.(strip := g.strip * k, child := g.child * k)
  }

  /** Counting in blocks or in bytes gives the same stripes, on the same workers, with the same
      parity disks, and lengths in proportion. */
  lemma {:induction false} ScaledGeo(g: Geo, k: nat, s: nat)
    requires g.Valid() && k > 0
    ensures var b := Scaled(g, k);
            && b.Valid() && b.Owner(s) == g.Owner(s) && b.Parity(s) == g.Parity(s)
            && b.StripeLen() == g.StripeLen() * k && b.First(s) == g.First(s) * k && b.Base(s) == g.Base(s) * k
            && b.Stripes() == g.Stripes() && b.Usable() == g.Usable() * k && b.Capacity() == g.Capacity() * k
  {
    var b := Scaled(g, k);
    MulMono(1, g.strip, k);
    ScaleDivMod(g.child, g.strip, k);
    MulTurn(g.ndisks - 1, g.strip, k);
    MulTurn(s, g.strip, k);
    MulTurn(s, g.StripeLen(), k);
    MulTurn(g.Stripes(), g.strip, k);
    MulTurn(g.ndisks - 1, g.Usable(), k);
  }

  lemma {:induction false} MulTurn(a: nat, b: nat, k: nat)
    ensures a * (b * k) == a * b * k
  {
  }

  /** Byte i of block a is in the same stripe as the block, and at its place on its disk. */
  lemma {:induction false} ScaledLocate(g: Geo, k: nat, a: nat, i: nat)
    requires g.Valid() && i < k
    ensures Scaled(g, k).Valid()
    ensures Scaled(g, k).StripeIdx(a * k + i) == g.StripeIdx(a)
    ensures Scaled(g, k).StripeOff(a * k + i) == g.StripeOff(a) * k + i
    ensures Scaled(g, k).Locate(a * k + i) == (g.Locate(a).0, g.Locate(a).1 * k + i)
  {
    hide Geo.StripeLen, Geo.Base;
    var b, q := Scaled(g, k), g.StripeOff(a);
    ScaledGeo(g, k, g.StripeIdx(a));
    ScaleByte(a, g.StripeLen(), k, i);
    ScaleByte(q, g.strip, k, i);
    var base, o := g.Base(g.StripeIdx(a)), q % g.strip;
    assert base * k + (o * k + i) == (base + o) * k + i by { MulSum(base, o, k); }
  }

  lemma {:induction false} MulSum(a: nat, b: nat, k: nat)
    ensures a * k + b * k == (a + b) * k
  {
  }
}
