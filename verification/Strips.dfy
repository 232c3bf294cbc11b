/** Splitting a request into strip segments. */
module Strips {
  import opened Geometry
  import opened XorAlgebra

  /** One segment of a request: `len` units at offset `off` of the strip on `disk`, holding
      the request's units from `pos` on. */
  datatype Strip = Strip(disk: nat, off: nat, len: nat, pos: nat)

  function Min(a: nat, b: nat): nat { if a <= b then a else b }

  /** The segments of stripe offsets [cursor, end) of a request for [start, end). */
  function Split(strip: nat, parity: nat, start: nat, end: nat, cursor: nat): seq<Strip>
    requires strip > 0 && start <= cursor <= end
    decreases end - cursor
  {
    if cursor == end then []
    else
      var off := cursor % strip;
      var take := Min(end - cursor, strip - off);
      [Strip(DataDisk(cursor / strip, parity), off, take, cursor - start)]
      + Split(strip, parity, start, end, cursor + take)
  }

  /** Segment `s` is exactly the part of request [start, end) that falls in data strip `j`. */
  ghost predicate Covers(s: Strip, strip: nat, parity: nat, start: nat, end: nat, j: nat) {
    && s.disk == DataDisk(j, parity)
    && start + s.pos == j * strip + s.off
    && s.len > 0 && s.off + s.len <= strip && start + s.pos + s.len <= end
    && (s.pos == 0 || s.off == 0)
    && (start + s.pos + s.len == end || s.off + s.len == strip)
  }

  /** The segments are the request's parts in consecutive data strips j0, j0 + 1, ... */
  ghost predicate Tiles(segs: seq<Strip>, strip: nat, parity: nat, start: nat, end: nat, cursor: nat, j0: nat) {
    && (forall k | 0 <= k < |segs| :: Covers(segs[k], strip, parity, start, end, j0 + k))
    && (forall k | 0 <= k < |segs| - 1 :: segs[k].pos + segs[k].len == segs[k + 1].pos)
    && (if |segs| == 0 then cursor == end
        else start + segs[0].pos == cursor && start + segs[|segs| - 1].pos + segs[|segs| - 1].len == end)
  }

  /** Unit `cursor` of a stripe is unit `off` of its data strip `j`. */
  ghost predicate InStrip(cursor: nat, strip: nat, j: nat, off: nat) {
    off < strip && cursor == j * strip + off
  }

  lemma {:induction false} FirstCovers(strip: nat, parity: nat, start: nat, end: nat, cursor: nat, j: nat, off: nat)
    requires InStrip(cursor, strip, j, off) && start <= cursor < end && (cursor == start || off == 0)
    ensures Covers(Strip(DataDisk(j, parity), off, Min(end - cursor, strip - off), cursor - start),
                   strip, parity, start, end, j)
  {
  }

  /** One round of the split loop. */
  lemma {:induction false} SplitOne(strip: nat, parity: nat, start: nat, end: nat, cursor: nat)
    requires strip > 0 && start <= cursor < end
    ensures var off := cursor % strip;
            var take := Min(end - cursor, strip - off);
            && off < strip && 0 < take <= end - cursor
            && Split(strip, parity, start, end, cursor)
               == [Strip(DataDisk(cursor / strip, parity), off, take, cursor - start)]
                  + Split(strip, parity, start, end, cursor + take)
  {
  }

  /** The same, from where the round starts in its strip. */
  lemma {:induction false} SplitStep(strip: nat, parity: nat, start: nat, end: nat, cursor: nat, j: nat, off: nat)
    requires InStrip(cursor, strip, j, off) && start <= cursor < end
    ensures var take := Min(end - cursor, strip - off);
            && 0 < take <= end - cursor
            && Split(strip, parity, start, end, cursor)
               == [Strip(DataDisk(j, parity), off, take, cursor - start)]
                  + Split(strip, parity, start, end, cursor + take)
            && (cursor + take < end ==> InStrip(cursor + take, strip, j + 1, 0))
  {
    hide Split, DataDisk;
    SplitOne(strip, parity, start, end, cursor);
    DivModUnique(j, strip, off);
    NextStrip(j, strip, off, cursor);
  }

  lemma {:induction false} NextStrip(j: nat, strip: nat, off: nat, cursor: nat)
    requires InStrip(cursor, strip, j, off)
    ensures InStrip(cursor + (strip - off), strip, j + 1, 0)
  {
  }

  lemma {:induction false} SplitTiles(strip: nat, parity: nat, start: nat, end: nat, cursor: nat, j: nat, off: nat)
    requires strip > 0 && start <= cursor <= end
    requires InStrip(cursor, strip, j, off) && (cursor == start || off == 0)
    ensures Tiles(Split(strip, parity, start, end, cursor), strip, parity, start, end, cursor, j)
    decreases end - cursor
  {
    hide Covers, Tiles, Split, DataDisk, InStrip;
    if cursor == end {
      SplitEnd(strip, parity, start, end);
      TilesNone(strip, parity, start, end, j);
    } else {
      StripRoom(cursor, strip, j, off);
      var take := Min(end - cursor, strip - off);
      var first := Strip(DataDisk(j, parity), off, take, cursor - start);
      FirstCovers(strip, parity, start, end, cursor, j, off);
      SplitStep(strip, parity, start, end, cursor, j, off);
      TilesFrom(first, strip, parity, start, end, cursor, j);
      if cursor + take < end {
        SplitTiles(strip, parity, start, end, cursor + take, j + 1, 0);
        TilesCons(first, Split(strip, parity, start, end, cursor + take), strip, parity, start, end, cursor, j);
      }
    }
  }

  lemma {:induction false} StripRoom(cursor: nat, strip: nat, j: nat, off: nat)
    requires InStrip(cursor, strip, j, off)
    ensures off < strip
  {
  }

  /** A segment that ends the request. */
  lemma {:induction false} TilesFrom(first: Strip, strip: nat, parity: nat, start: nat, end: nat, cursor: nat, j: nat)
    requires strip > 0 && start <= cursor < end && first.pos == cursor - start
    requires Covers(first, strip, parity, start, end, j)
    ensures cursor + first.len == end ==>
              Tiles([first] + Split(strip, parity, start, end, end), strip, parity, start, end, cursor, j)
  {
  }

  lemma {:induction false} SplitEnd(strip: nat, parity: nat, start: nat, end: nat)
    requires strip > 0 && start <= end
    ensures Split(strip, parity, start, end, end) == []
  {
  }

  lemma {:induction false} TilesNone(strip: nat, parity: nat, start: nat, end: nat, j0: nat)
    ensures Tiles([], strip, parity, start, end, end, j0)
  {
  }

  lemma {:induction false} TilesCons(first: Strip, rest: seq<Strip>, strip: nat, parity: nat, start: nat, end: nat,
                                     cursor: nat, j0: nat)
    requires Covers(first, strip, parity, start, end, j0) && start + first.pos == cursor
    requires Tiles(rest, strip, parity, start, end, cursor + first.len, j0 + 1) && cursor + first.len < end
    ensures Tiles([first] + rest, strip, parity, start, end, cursor, j0)
  {
    hide Covers;
    var segs := [first] + rest;
    forall k | 0 <= k < |segs|
      ensures Covers(segs[k], strip, parity, start, end, j0 + k)
    {
      if k > 0 {
        assert Covers(rest[k - 1], strip, parity, start, end, j0 + 1 + (k - 1));
      }
    }
    forall k | 0 <= k < |segs| - 1
      ensures segs[k].pos + segs[k].len == segs[k + 1].pos
    {
      if k > 0 {
        assert rest[k - 1].pos + rest[k - 1].len == rest[k].pos;
      }
    }
  }

  /** The segments of a whole request that lies in one stripe. */
  function SplitStrips(strip: nat, parity: nat, start: nat, len: nat): seq<Strip>
    requires strip > 0
  {
    Split(strip, parity, start, start + len, start)
  }

  lemma {:induction false} CoversBounded(g: Geo, s: Strip, parity: nat, start: nat, end: nat, j: nat)
    requires g.Valid() && parity < g.ndisks && end <= g.StripeLen()
    requires Covers(s, g.strip, parity, start, end, j)
    ensures j < g.ndisks - 1 && s.disk < g.ndisks && s.disk != parity && DataStrip(s.disk, parity) == j
  {
    if j >= g.ndisks - 1 {
      MulMono(g.ndisks - 1, j, g.strip);
    }
  }

  ghost predicate OnDistinctDataDisks(g: Geo, segs: seq<Strip>, parity: nat) {
    && |segs| <= g.ndisks - 1
    && (forall k | 0 <= k < |segs| :: segs[k].disk < g.ndisks && segs[k].disk != parity)
    && (forall k, l | 0 <= k < l < |segs| :: segs[k].disk != segs[l].disk)
  }

  lemma {:induction false} TilesDistinct(g: Geo, segs: seq<Strip>, parity: nat, start: nat, end: nat, j0: nat)
    requires g.Valid() && parity < g.ndisks && end <= g.StripeLen()
    requires Tiles(segs, g.strip, parity, start, end, start, j0)
    ensures OnDistinctDataDisks(g, segs, parity)
  {
    forall k | 0 <= k < |segs|
      ensures j0 + k < g.ndisks - 1 && segs[k].disk < g.ndisks && segs[k].disk != parity
      ensures DataStrip(segs[k].disk, parity) == j0 + k
    {
      CoversBounded(g, segs[k], parity, start, end, j0 + k);
    }
    if |segs| > 0 {
      assert segs[|segs| - 1].disk < g.ndisks;
    }
  }

  /** Segments of a request inside a stripe sit on different data disks, within one strip
      each, so there are at most ndisks - 1 of them; in order they make up the request. */
  lemma {:induction false} SplitBounds(g: Geo, parity: nat, start: nat, len: nat)
    requires g.Valid() && parity < g.ndisks && start + len <= g.StripeLen()
    ensures var segs := SplitStrips(g.strip, parity, start, len);
            && Tiles(segs, g.strip, parity, start, start + len, start, start / g.strip)
            && OnDistinctDataDisks(g, segs, parity)
  {
    hide Tiles, Covers, Split;
    var segs, j0 := SplitStrips(g.strip, parity, start, len), start / g.strip;
    assert Tiles(segs, g.strip, parity, start, start + len, start, j0) by {
      SplitTiles(g.strip, parity, start, start + len, start, start / g.strip, start % g.strip);
    }
    TilesDistinct(g, segs, parity, start, start + len, j0);
  }

  /** Segment addresses agree with the unit-by-unit address map. */
  lemma {:induction false} SplitFollowsMap(g: Geo, a: nat, len: nat, k: nat, i: nat)
    requires g.Valid() && g.StripeOff(a) + len <= g.StripeLen()
    requires var segs := SplitStrips(g.strip, g.Parity(g.StripeIdx(a)), g.StripeOff(a), len);
             k < |segs| && i < segs[k].len
    ensures var seg := SplitStrips(g.strip, g.Parity(g.StripeIdx(a)), g.StripeOff(a), len)[k];
            g.Locate(a + seg.pos + i) == (seg.disk, g.Base(g.StripeIdx(a)) + seg.off + i)
  {
    var s, start := g.StripeIdx(a), g.StripeOff(a);
    var seg := SplitStrips(g.strip, g.Parity(s), start, len)[k];
    var j := start / g.strip + k;
    SplitBounds(g, g.Parity(s), start, len);
    assert Covers(seg, g.strip, g.Parity(s), start, start + len, j);
    StripeDecompose(g, a);
    var q := start + seg.pos + i;
    assert q == j * g.strip + (seg.off + i);
    PlaceAt(g, s, j, seg.off + i);
    UnitOfStripe(g, s, q);
  }

  /** Splitting in blocks and then counting bytes is splitting in bytes. */
  function Scale(s: Strip, k: nat): Strip {
    Strip(s.disk, s.off * k, s.len * k, s.pos * k)
  }

  function ScaleAll(segs: seq<Strip>, k: nat): (r: seq<Strip>)
    ensures |r| == |segs| && forall i | 0 <= i < |segs| :: r[i] == Scale(segs[i], k)
  {
    if |segs| == 0 then [] else [Scale(segs[0], k)] + ScaleAll(segs[1..], k)
  }

  lemma {:induction false} SplitScales(strip: nat, parity: nat, start: nat, end: nat, cursor: nat, k: nat)
    requires strip > 0 && k > 0 && start <= cursor <= end
    ensures strip * k > 0 && start * k <= cursor * k <= end * k
    ensures Split(strip * k, parity, start * k, end * k, cursor * k)
            == ScaleAll(Split(strip, parity, start, end, cursor), k)
    decreases end - cursor
  {
    ScaleBounds(strip, start, end, cursor, k);
    if cursor < end {
      var take := Min(end - cursor, strip - cursor % strip);
      var rest := Split(strip, parity, start, end, cursor + take);
      SplitScales(strip, parity, start, end, cursor + take, k);
      FirstScales(strip, parity, start, end, cursor, k);
      assert Split(strip, parity, start, end, cursor)[1..] == rest;
    }
  }

  lemma {:induction false} ScaleBounds(strip: nat, start: nat, end: nat, cursor: nat, k: nat)
    requires strip > 0 && k > 0 && start <= cursor <= end
    ensures strip * k > 0 && start * k <= cursor * k <= end * k
    ensures cursor < end ==> cursor * k < end * k
  {
  }

  /** One step of the split, scaled. */
  lemma {:induction false} FirstScales(strip: nat, parity: nat, start: nat, end: nat, cursor: nat, k: nat)
    requires strip > 0 && k > 0 && start <= cursor < end
    requires strip * k > 0 && start * k <= cursor * k < end * k
    ensures var off := cursor % strip;
            var take := Min(end - cursor, strip - off);
            && (cursor * k) / (strip * k) == cursor / strip
            && (cursor * k) % (strip * k) == off * k
            && Min(end * k - cursor * k, strip * k - off * k) == take * k
            && cursor * k + take * k == (cursor + take) * k
            && cursor * k - start * k == (cursor - start) * k
  {
    var off := cursor % strip;
    ScaleDivMod(cursor, strip, k);
    MinScales(end - cursor, strip - off, k);
    MulMinus(end, cursor, k);
    MulMinus(strip, off, k);
    MulMinus(cursor, start, k);
  }

  lemma {:induction false} MulMinus(a: nat, b: nat, k: nat)
    ensures (a - b) * k == a * k - b * k
  {
  }

  lemma {:induction false} MinScales(a: nat, b: nat, k: nat)
    ensures Min(a * k, b * k) == Min(a, b) * k
  {
  }
}
