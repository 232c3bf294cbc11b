/** What one stripe should hold on each disk, and the three parity computations:
    whole stripe, read-modify-write, and reconstruction of one strip. */
module Parity {
  import opened XorAlgebra
  import opened Geometry
  import opened Strips

  // Strips as a matrix of bytes.

  predicate Uniform(ss: seq<Bytes>, len: nat) {
    forall k | 0 <= k < |ss| :: |ss[k]| == len
  }

  function Zeros(len: nat): (r: Bytes)
    ensures |r| == len && forall i | 0 <= i < len :: r[i] == 0
  {
    if len == 0 then [] else Zeros(len - 1) + [0]
  }

  /** The exclusive-or of strips of one length. */
  function XorAll(ss: seq<Bytes>, len: nat): (r: Bytes)
    requires Uniform(ss, len)
    ensures |r| == len
  {
    if |ss| == 0 then Zeros(len) else XorBytes(XorAll(ss[..|ss| - 1], len), ss[|ss| - 1])
  }

  /** Byte `o` of every strip. */
  function Column(ss: seq<Bytes>, len: nat, o: nat): (r: Bytes)
    requires Uniform(ss, len) && o < len
    ensures |r| == |ss| && forall k | 0 <= k < |ss| :: r[k] == ss[k][o]
  {
    if |ss| == 0 then [] else Column(ss[..|ss| - 1], len, o) + [ss[|ss| - 1][o]]
  }

  lemma {:induction false} XorAllAt(ss: seq<Bytes>, len: nat, o: nat)
    requires Uniform(ss, len) && o < len
    ensures XorAll(ss, len)[o] == XorSeq(Column(ss, len, o))
    decreases |ss|
  {
    if |ss| > 0 {
      XorAllAt(ss[..|ss| - 1], len, o);
      assert Column(ss, len, o)[..|ss| - 1] == Column(ss[..|ss| - 1], len, o);
    }
  }

  /** Replacing one strip changes the exclusive-or by old ^ new. */
  lemma {:induction false} XorAllUpdate(ss: seq<Bytes>, len: nat, k: nat, v: Bytes)
    requires Uniform(ss, len) && k < |ss| && |v| == len
    ensures Uniform(ss[k := v], len)
    ensures XorAll(ss[k := v], len) == XorBytes(XorBytes(XorAll(ss, len), ss[k]), v)
  {
    hide XorSeq, XorAll, Column, XorBytes;
    forall o | 0 <= o < len
      ensures XorAll(ss[k := v], len)[o] == XorAll(ss, len)[o] ^ ss[k][o] ^ v[o]
    {
      XorAllAt(ss, len, o);
      XorAllAt(ss[k := v], len, o);
      XorUpdate(Column(ss, len, o), k, v[o]);
      assert Column(ss[k := v], len, o) == Column(ss, len, o)[k := v[o]];
    }
  }

  /** One strip apart from the others. */
  lemma {:induction false} XorAllSplit(ss: seq<Bytes>, len: nat, k: nat)
    requires Uniform(ss, len) && k < |ss|
    ensures Uniform(Without(ss, k), len)
    ensures forall o | 0 <= o < len :: XorAll(ss, len)[o] == XorAll(Without(ss, k), len)[o] ^ ss[k][o]
  {
    hide XorSeq, XorAll, Column;
    forall o | 0 <= o < len
      ensures XorAll(ss, len)[o] == XorAll(Without(ss, k), len)[o] ^ ss[k][o]
    {
      XorAllAt(ss, len, o);
      XorAllAt(Without(ss, k), len, o);
      XorRemove(Column(ss, len, o), k);
      assert Column(Without(ss, k), len, o) == Without(Column(ss, len, o), k);
    }
  }

  /** Strips that cancel out determine each of them from the others. */
  lemma {:induction false} XorAllOthers(ss: seq<Bytes>, len: nat, k: nat)
    requires Uniform(ss, len) && k < |ss|
    ensures Uniform(Without(ss, k), len)
    ensures XorAll(ss, len) == Zeros(len) <==> XorAll(Without(ss, k), len) == ss[k]
  {
    hide XorAll, Zeros;
    XorAllSplit(ss, len, k);
    forall o | 0 <= o < len
      ensures XorAll(ss, len)[o] == 0 <==> XorAll(Without(ss, k), len)[o] == ss[k][o]
    {
      XorZero(XorAll(Without(ss, k), len)[o], ss[k][o]);
    }
  }

  lemma {:induction false} XorZero(a: bv8, b: bv8)
    ensures a ^ b == 0 <==> a == b
  {
  }

  // One stripe.

  /** The data strips of a stripe of logical bytes. */
  function Chunks(fs: Bytes, strip: nat, m: nat): (r: seq<Bytes>)
    requires m * strip <= |fs|
    ensures |r| == m
    ensures Uniform(r, strip)
    decreases m
  {
    if m == 0 then []
    else
      MulMono(m - 1, m, strip);
      MulGap(m - 1, m, strip);
      Chunks(fs, strip, m - 1) + [fs[(m - 1) * strip..(m - 1) * strip + strip]]
  }

  lemma {:induction false} ChunkAt(fs: Bytes, strip: nat, m: nat, j: nat)
    requires j < m && m * strip <= |fs|
    ensures j * strip + strip <= |fs|
    ensures Chunks(fs, strip, m)[j] == fs[j * strip..j * strip + strip]
    decreases m
  {
    MulGap(j, m, strip);
    MulMono(m - 1, m, strip);
    if j < m - 1 {
      ChunkAt(fs, strip, m - 1, j);
    }
  }

  /** What the disks hold of a stripe: its data strips with the parity strip put in. */
  function WithParity(data: seq<Bytes>, strip: nat, p: nat): (r: seq<Bytes>)
    requires Uniform(data, strip) && p <= |data|
    ensures |r| == |data| + 1 && Uniform(r, strip)
    ensures r[p] == XorAll(data, strip)
    ensures forall d | 0 <= d <= |data| && d != p :: r[d] == data[DataStrip(d, p)]
  {
    data[..p] + [XorAll(data, strip)] + data[p..]
  }

  /** A stripe with its parity cancels out: any strip is the exclusive-or of the others. */
  lemma {:induction false} AnyStripFromOthers(data: seq<Bytes>, strip: nat, p: nat, d: nat)
    requires Uniform(data, strip) && p <= |data| && d <= |data|
    ensures XorAll(WithParity(data, strip, p), strip) == Zeros(strip)
    ensures Uniform(Without(WithParity(data, strip, p), d), strip)
    ensures XorAll(Without(WithParity(data, strip, p), d), strip) == WithParity(data, strip, p)[d]
  {
    var all := WithParity(data, strip, p);
    assert Without(all, p) == data;
    XorAllOthers(all, strip, p);
    XorAllOthers(all, strip, d);
  }

  /** The strips disks 0.. should hold of stripe bytes `fs`. */
  function Expected(fs: Bytes, strip: nat, ndisks: nat, p: nat): (r: seq<Bytes>)
    requires ndisks > 0 && p < ndisks && |fs| == (ndisks - 1) * strip
    ensures |r| == ndisks && Uniform(r, strip)
  {
    WithParity(Chunks(fs, strip, ndisks - 1), strip, p)
  }

  lemma {:induction false} ExpectedData(fs: Bytes, strip: nat, ndisks: nat, p: nat, j: nat)
    requires ndisks > 0 && p < ndisks && |fs| == (ndisks - 1) * strip && j < ndisks - 1
    ensures j * strip + strip <= |fs|
    ensures Expected(fs, strip, ndisks, p)[DataDisk(j, p)] == fs[j * strip..j * strip + strip]
  {
    ChunkAt(fs, strip, ndisks - 1, j);
  }

  // A write seen strip by strip.

  /** The part of request data `d` that segment `s` carries. */
  function Piece(s: Strip, d: Bytes): (r: Bytes)
    requires s.pos + s.len <= |d|
    ensures |r| == s.len
  {
    d[s.pos..s.pos + s.len]
  }

  lemma {:induction false} PatchInside(fs: Bytes, start: nat, d: Bytes, base: nat, strip: nat, s: Strip)
    requires start + |d| <= |fs| && base + strip <= |fs|
    requires start + s.pos == base + s.off && s.off + s.len <= strip && s.pos + s.len <= |d|
    requires s.pos == 0 || s.off == 0
    requires s.pos + s.len == |d| || s.off + s.len == strip
    ensures Splice(fs, start, d)[base..base + strip] == Splice(fs[base..base + strip], s.off, Piece(s, d))
  {
  }

  lemma {:induction false} PatchOutside(fs: Bytes, start: nat, d: Bytes, base: nat, strip: nat)
    requires start + |d| <= |fs| && base + strip <= |fs|
    requires d == [] || base + strip <= start || start + |d| <= base
    ensures Splice(fs, start, d)[base..base + strip] == fs[base..base + strip]
  {
  }

  /** The stripe geometry a write or read of [start, start + len) is planned in. */
  ghost predicate Planned(segs: seq<Strip>, strip: nat, ndisks: nat, p: nat, start: nat, len: nat, j0: nat) {
    && strip > 0 && ndisks > 0 && p < ndisks && start + len <= (ndisks - 1) * strip
    && Tiles(segs, strip, p, start, start + len, start, j0)
    && j0 + |segs| <= ndisks - 1
  }

  /** Segment k of a planned request. */
  lemma {:induction false} PlannedAt(segs: seq<Strip>, strip: nat, ndisks: nat, p: nat, start: nat, len: nat, j0: nat,
                                     k: nat)
    requires Planned(segs, strip, ndisks, p, start, len, j0) && k < |segs|
    ensures j0 + k < ndisks - 1 && p < ndisks && start + len <= (ndisks - 1) * strip
    ensures segs[k].disk == DataDisk(j0 + k, p) < ndisks && segs[k].disk != p
    ensures start + segs[k].pos == (j0 + k) * strip + segs[k].off
    ensures segs[k].pos == 0 || segs[k].off == 0
    ensures segs[k].pos + segs[k].len == len || segs[k].off + segs[k].len == strip
    ensures segs[k].off + segs[k].len <= strip && segs[k].pos + segs[k].len <= len
  {
    assert Covers(segs[k], strip, p, start, start + len, j0 + k);
  }

  /** On the disk of segment k, a write overwrites just that segment. */
  lemma {:induction false} WriteInSegment(fs: Bytes, segs: seq<Strip>, strip: nat, ndisks: nat, p: nat, start: nat,
                                          d: Bytes, j0: nat, k: nat)
    requires Planned(segs, strip, ndisks, p, start, |d|, j0) && k < |segs|
    requires |fs| == (ndisks - 1) * strip
    requires segs[k].disk < ndisks && segs[k].off + segs[k].len <= strip && segs[k].pos + segs[k].len <= |d|
    ensures Expected(Splice(fs, start, d), strip, ndisks, p)[segs[k].disk]
            == Splice(Expected(fs, strip, ndisks, p)[segs[k].disk], segs[k].off, Piece(segs[k], d))
  {
    hide Expected, Splice, Planned;
    PlannedAt(segs, strip, ndisks, p, start, |d|, j0, k);
    var base := (j0 + k) * strip;
    ExpectedData(fs, strip, ndisks, p, j0 + k);
    ExpectedData(Splice(fs, start, d), strip, ndisks, p, j0 + k);
    PatchInside(fs, start, d, base, strip, segs[k]);
  }

  lemma {:induction false} BeforeAndAfter(segs: seq<Strip>, strip: nat, ndisks: nat, p: nat, start: nat, len: nat,
                                          j0: nat, j: nat)
    requires Planned(segs, strip, ndisks, p, start, len, j0)
    requires j < j0 || j0 + |segs| <= j
    ensures len == 0 || j * strip + strip <= start || start + len <= j * strip
  {
    if |segs| > 0 {
      var last := |segs| - 1;
      assert Covers(segs[0], strip, p, start, start + len, j0 + 0);
      assert Covers(segs[last], strip, p, start, start + len, j0 + last);
      if j < j0 {
        MulGap(j, j0, strip);
      } else {
        MulGap(j0 + last, j, strip);
      }
    }
  }

  /** A write leaves the data strips it has no segment in. */
  lemma {:induction false} WriteElsewhere(fs: Bytes, segs: seq<Strip>, strip: nat, ndisks: nat, p: nat, start: nat,
                                          d: Bytes, j0: nat, j: nat)
    requires Planned(segs, strip, ndisks, p, start, |d|, j0) && |fs| == (ndisks - 1) * strip
    requires j < ndisks - 1 && (j < j0 || j0 + |segs| <= j)
    ensures Expected(Splice(fs, start, d), strip, ndisks, p)[DataDisk(j, p)]
            == Expected(fs, strip, ndisks, p)[DataDisk(j, p)]
  {
    hide Expected, Splice, Tiles;
    ExpectedData(fs, strip, ndisks, p, j);
    ExpectedData(Splice(fs, start, d), strip, ndisks, p, j);
    BeforeAndAfter(segs, strip, ndisks, p, start, |d|, j0, j);
    PatchOutside(fs, start, d, j * strip, strip);
  }

  // Read-modify-write.

  function XorIn(buf: Bytes, at: nat, s: Bytes): (r: Bytes)
    requires at + |s| <= |buf|
    ensures |r| == |buf|
  {
    Splice(buf, at, XorBytes(buf[at..at + |s|], s))
  }

  /** Segment k of a request can be combined with old data `old` in a strip-sized buffer. */
  predicate Fitting(segs: seq<Strip>, strip: nat, olds: seq<Bytes>, d: Bytes) {
    && |olds| == |segs|
    && forall k | 0 <= k < |segs| ::
         segs[k].off + segs[k].len <= strip && segs[k].pos + segs[k].len <= |d| && |olds[k]| == segs[k].len
  }

  /** New parity from old parity, old data and new data, segment after segment. */
  function Rmw(parity: Bytes, segs: seq<Strip>, olds: seq<Bytes>, d: Bytes, k: nat): (r: Bytes)
    requires Fitting(segs, |parity|, olds, d) && k <= |segs|
    ensures |r| == |parity|
    decreases k
  {
    if k == 0 then parity
    else
      var s := segs[k - 1];
      XorIn(XorIn(Rmw(parity, segs, olds, d, k - 1), s.off, olds[k - 1]), s.off, Piece(s, d))
  }

  /** The data strips after the first k segments are written. */
  function Written(data: seq<Bytes>, strip: nat, segs: seq<Strip>, d: Bytes, j0: nat, k: nat): (r: seq<Bytes>)
    requires Uniform(data, strip) && k <= |segs| && j0 + |segs| <= |data|
    requires forall i | 0 <= i < |segs| :: segs[i].off + segs[i].len <= strip && segs[i].pos + segs[i].len <= |d|
    ensures |r| == |data| && Uniform(r, strip)
    ensures forall j | j0 <= j < j0 + k :: r[j] == Splice(data[j], segs[j - j0].off, Piece(segs[j - j0], d))
    ensures forall j | 0 <= j < |data| && (j < j0 || j0 + k <= j) :: r[j] == data[j]
    decreases k
  {
    if k == 0 then data
    else
      var was := Written(data, strip, segs, d, j0, k - 1);
      var s := segs[k - 1];
      was[j0 + k - 1 := Splice(was[j0 + k - 1], s.off, Piece(s, d))]
  }

  lemma {:induction false} XorInTwice(buf: Bytes, strip: Bytes, at: nat, now: Bytes)
    requires |buf| == |strip| && at + |now| <= |buf|
    ensures XorIn(XorIn(buf, at, strip[at..at + |now|]), at, now)
            == XorBytes(XorBytes(buf, strip), Splice(strip, at, now))
  {
    hide XorBytes, Splice, XorIn;
    var half := XorIn(buf, at, strip[at..at + |now|]);
    forall i | 0 <= i < |buf|
      ensures XorIn(half, at, now)[i] == XorBytes(XorBytes(buf, strip), Splice(strip, at, now))[i]
    {
      XorInAt(buf, at, strip[at..at + |now|], i);
      XorInAt(half, at, now, i);
      XorSame(buf[i], strip[i]);
    }
  }

  lemma {:induction false} XorInAt(buf: Bytes, at: nat, s: Bytes, i: nat)
    requires at + |s| <= |buf| && i < |buf|
    ensures XorIn(buf, at, s)[i] == if at <= i < at + |s| then buf[i] ^ s[i - at] else buf[i]
  {
  }

  lemma {:induction false} XorSame(a: bv8, x: bv8)
    ensures (a ^ x) ^ x == a
  {
  }

  lemma {:induction false} XorBothSides(a: Bytes, b: Bytes, x: Bytes, y: Bytes)
    requires |a| == |b| == |x| == |y|
    ensures XorBytes(XorBytes(XorBytes(a, x), y), XorBytes(XorBytes(b, x), y)) == XorBytes(a, b)
  {
    hide XorBytes;
    forall i | 0 <= i < |a|
      ensures ((a[i] ^ x[i]) ^ y[i]) ^ ((b[i] ^ x[i]) ^ y[i]) == a[i] ^ b[i]
    {
      XorBoth(a[i], b[i], x[i], y[i]);
    }
  }

  lemma {:induction false} XorBoth(a: bv8, b: bv8, x: bv8, y: bv8)
    ensures ((a ^ x) ^ y) ^ ((b ^ x) ^ y) == a ^ b
  {
  }

  /** The read-modify-write loop leaves every row's exclusive-or as it found it, whatever
      that was: a consistent stripe stays consistent. */
  lemma {:induction false} RmwKeepsRows(parity: Bytes, data: seq<Bytes>, segs: seq<Strip>, olds: seq<Bytes>, d: Bytes,
                                        j0: nat, k: nat)
    requires Uniform(data, |parity|) && Fitting(segs, |parity|, olds, d)
    requires k <= |segs| && j0 + |segs| <= |data|
    requires forall i | 0 <= i < |segs| :: olds[i] == data[j0 + i][segs[i].off..segs[i].off + segs[i].len]
    ensures var now := Written(data, |parity|, segs, d, j0, k);
            XorBytes(Rmw(parity, segs, olds, d, k), XorAll(now, |parity|)) == XorBytes(parity, XorAll(data, |parity|))
    decreases k
  {
    hide XorAll, XorIn, XorBytes, Splice;
    if k > 0 {
      RmwKeepsRows(parity, data, segs, olds, d, j0, k - 1);
      RmwStep(parity, data, segs, olds, d, j0, k - 1);
    }
  }

  lemma {:induction false} RmwStep(parity: Bytes, data: seq<Bytes>, segs: seq<Strip>, olds: seq<Bytes>, d: Bytes,
                                   j0: nat, k: nat)
    requires Uniform(data, |parity|) && Fitting(segs, |parity|, olds, d)
    requires k < |segs| && j0 + |segs| <= |data|
    requires forall i | 0 <= i < |segs| :: olds[i] == data[j0 + i][segs[i].off..segs[i].off + segs[i].len]
    ensures var strip := |parity|;
            var was, now := Written(data, strip, segs, d, j0, k), Written(data, strip, segs, d, j0, k + 1);
            XorBytes(Rmw(parity, segs, olds, d, k + 1), XorAll(now, strip))
            == XorBytes(Rmw(parity, segs, olds, d, k), XorAll(was, strip))
  {
    hide XorAll, XorIn, Splice, XorBytes;
    var strip, s := |parity|, segs[k];
    var was := Written(data, strip, segs, d, j0, k);
    var x := was[j0 + k];
    var y := Splice(x, s.off, Piece(s, d));
    var buf := Rmw(parity, segs, olds, d, k);
    XorAllUpdate(was, strip, j0 + k, y);
    XorInTwice(buf, x, s.off, Piece(s, d));
    XorBothSides(buf, XorAll(was, strip), x, y);
  }

  /** Exclusive-or of parity with consistent data is nothing, and nothing else makes it so. */
  lemma {:induction false} XorBytesSelf(a: Bytes, b: Bytes)
    requires |a| == |b|
    ensures XorBytes(a, b) == Zeros(|a|) <==> a == b
  {
  }

  /** Read-modify-write makes the parity of the new data exactly when it started from the parity
      of the old data: so parity rebuilt from the data strips gives the right new parity even
      if the parity on disk was wrong, and wrong parity stays wrong. */
  lemma {:induction false} RmwRightIff(parity: Bytes, data: seq<Bytes>, segs: seq<Strip>, olds: seq<Bytes>, d: Bytes,
                                       j0: nat)
    requires Uniform(data, |parity|) && Fitting(segs, |parity|, olds, d) && j0 + |segs| <= |data|
    requires forall i | 0 <= i < |segs| :: olds[i] == data[j0 + i][segs[i].off..segs[i].off + segs[i].len]
    ensures Rmw(parity, segs, olds, d, |segs|) == XorAll(Written(data, |parity|, segs, d, j0, |segs|), |parity|)
            <==> parity == XorAll(data, |parity|)
  {
    hide Rmw, Written, XorAll;
    RmwKeepsRows(parity, data, segs, olds, d, j0, |segs|);
    XorBytesSelf(parity, XorAll(data, |parity|));
    XorBytesSelf(Rmw(parity, segs, olds, d, |segs|), XorAll(Written(data, |parity|, segs, d, j0, |segs|), |parity|));
  }

  /** After a planned write, the data strips are those of the new stripe bytes. */
  lemma {:induction false} WrittenIsPatched(fs: Bytes, segs: seq<Strip>, strip: nat, ndisks: nat, p: nat, start: nat,
                                            d: Bytes, j0: nat)
    requires Planned(segs, strip, ndisks, p, start, |d|, j0) && |fs| == (ndisks - 1) * strip
    requires forall i | 0 <= i < |segs| :: segs[i].off + segs[i].len <= strip && segs[i].pos + segs[i].len <= |d|
    ensures Written(Chunks(fs, strip, ndisks - 1), strip, segs, d, j0, |segs|)
            == Chunks(Splice(fs, start, d), strip, ndisks - 1)
  {
    hide Chunks, Splice, Tiles, Covers;
    var data, now := Chunks(fs, strip, ndisks - 1), Chunks(Splice(fs, start, d), strip, ndisks - 1);
    var written := Written(data, strip, segs, d, j0, |segs|);
    forall j | 0 <= j < ndisks - 1
      ensures written[j] == now[j]
    {
      StripAfterWrite(fs, segs, strip, ndisks, p, start, d, j0, j);
    }
  }

  lemma {:induction false} StripAfterWrite(fs: Bytes, segs: seq<Strip>, strip: nat, ndisks: nat, p: nat, start: nat,
                                           d: Bytes, j0: nat, j: nat)
    requires Planned(segs, strip, ndisks, p, start, |d|, j0) && |fs| == (ndisks - 1) * strip
    requires forall i | 0 <= i < |segs| :: segs[i].off + segs[i].len <= strip && segs[i].pos + segs[i].len <= |d|
    requires j < ndisks - 1
    ensures Chunks(Splice(fs, start, d), strip, ndisks - 1)[j]
            == var was := Chunks(fs, strip, ndisks - 1)[j];
               if j0 <= j < j0 + |segs| then Splice(was, segs[j - j0].off, Piece(segs[j - j0], d)) else was
  {
    hide Chunks, Splice, Tiles, Covers;
    assert Chunks(Splice(fs, start, d), strip, ndisks - 1)[j]
        == Expected(Splice(fs, start, d), strip, ndisks, p)[DataDisk(j, p)];
    assert Chunks(fs, strip, ndisks - 1)[j] == Expected(fs, strip, ndisks, p)[DataDisk(j, p)];
    if j0 <= j < j0 + |segs| {
      PlannedAt(segs, strip, ndisks, p, start, |d|, j0, j - j0);
      WriteInSegment(fs, segs, strip, ndisks, p, start, d, j0, j - j0);
    } else {
      WriteElsewhere(fs, segs, strip, ndisks, p, start, d, j0, j);
    }
  }

  lemma {:induction false} XorNothing(a: Bytes)
    ensures XorBytes(a, Zeros(|a|)) == a
  {
  }

  lemma {:induction false} XorMoves(a: Bytes, b: Bytes, c: Bytes)
    requires |a| == |b| == |c|
    ensures XorBytes(a, b) == c <==> a == XorBytes(b, c)
  {
  }

  /** Read-modify-write computes the parity of the new stripe as far off as the old one was: the
      right parity, if that was right. */
  lemma {:induction false} RmwCorrect(fs: Bytes, skew: Bytes, segs: seq<Strip>, strip: nat, ndisks: nat, p: nat,
                                      start: nat, olds: seq<Bytes>, d: Bytes, j0: nat)
    requires Planned(segs, strip, ndisks, p, start, |d|, j0) && |fs| == (ndisks - 1) * strip && |skew| == strip
    requires Fitting(segs, strip, olds, d)
    requires forall k | 0 <= k < |segs| ::
               segs[k].disk < ndisks
               && olds[k] == Expected(fs, strip, ndisks, p)[segs[k].disk][segs[k].off..segs[k].off + segs[k].len]
    ensures Rmw(XorBytes(Expected(fs, strip, ndisks, p)[p], skew), segs, olds, d, |segs|)
            == XorBytes(Expected(Splice(fs, start, d), strip, ndisks, p)[p], skew)
  {
    hide Chunks, Splice, Tiles, Covers, Rmw, Written, XorAll, XorBytes;
    var data, now := Chunks(fs, strip, ndisks - 1), Chunks(Splice(fs, start, d), strip, ndisks - 1);
    var parity := XorBytes(XorAll(data, strip), skew);
    assert Expected(fs, strip, ndisks, p)[p] == XorAll(data, strip);
    forall k | 0 <= k < |segs|
      ensures olds[k] == data[j0 + k][segs[k].off..segs[k].off + segs[k].len]
    {
      PlannedAt(segs, strip, ndisks, p, start, |d|, j0, k);
    }
    RmwKeepsRows(parity, data, segs, olds, d, j0, |segs|);
    WrittenIsPatched(fs, segs, strip, ndisks, p, start, d, j0);
    XorMoves(parity, XorAll(data, strip), skew);
    XorMoves(Rmw(parity, segs, olds, d, |segs|), XorAll(now, strip), skew);
  }

  // Whole stripe.

  /** The data each segment carries, segment after segment. */
  function Pieces(segs: seq<Strip>, d: Bytes): (r: seq<Bytes>)
    requires forall k | 0 <= k < |segs| :: segs[k].pos + segs[k].len <= |d|
    ensures |r| == |segs| && forall k | 0 <= k < |segs| :: r[k] == Piece(segs[k], d)
  {
    if |segs| == 0 then [] else Pieces(segs[..|segs| - 1], d) + [Piece(segs[|segs| - 1], d)]
  }

  /** A request for a whole stripe has one whole-strip segment per data disk, in disk order. */
  lemma {:induction false} WholeStripe(segs: seq<Strip>, strip: nat, ndisks: nat, p: nat, d: Bytes)
    requires Planned(segs, strip, ndisks, p, 0, |d|, 0) && ndisks > 1 && |d| == (ndisks - 1) * strip
    ensures |segs| == ndisks - 1
    ensures forall k | 0 <= k < |segs| ::
              segs[k].disk == DataDisk(k, p) && segs[k].off == 0 && segs[k].len == strip
              && segs[k].pos + strip <= |d| && Piece(segs[k], d) == Chunks(d, strip, ndisks - 1)[k]
  {
    WholeStripeCount(segs, strip, ndisks, p, |d|);
    forall k | 0 <= k < |segs|
      ensures segs[k].disk == DataDisk(k, p) && segs[k].off == 0 && segs[k].len == strip
      ensures segs[k].pos + strip <= |d| && Piece(segs[k], d) == Chunks(d, strip, ndisks - 1)[k]
    {
      hide Chunks;
      assert Covers(segs[k], strip, p, 0, |d|, 0 + k);
      if k < |segs| - 1 {
        assert Covers(segs[k + 1], strip, p, 0, |d|, 0 + (k + 1));
      }
      assert segs[k].off == 0 by { WholeStripStart(segs[k], strip, k); }
      WholeStripEnd(segs[k], strip, k, ndisks);
      ChunkAt(d, strip, ndisks - 1, k);
    }
  }

  lemma {:induction false} WholeStripStart(s: Strip, strip: nat, k: nat)
    requires s.pos == k * strip + s.off && (s.pos == 0 || s.off == 0)
    ensures s.off == 0
  {
  }

  lemma {:induction false} WholeStripEnd(s: Strip, strip: nat, k: nat, ndisks: nat)
    requires s.pos == k * strip && s.off == 0 && s.len <= strip && k < ndisks - 1
    requires s.pos + s.len == (ndisks - 1) * strip || s.len == strip
    ensures s.len == strip
  {
    MulGap(k, ndisks - 1, strip);
  }

  lemma {:induction false} WholeStripeCount(segs: seq<Strip>, strip: nat, ndisks: nat, p: nat, len: nat)
    requires Planned(segs, strip, ndisks, p, 0, len, 0) && ndisks > 1 && len == (ndisks - 1) * strip
    ensures |segs| == ndisks - 1
  {
    MulMono(1, ndisks - 1, strip);
    assert |segs| > 0;
    var last := |segs| - 1;
    assert Covers(segs[last], strip, p, 0, len, 0 + last);
    assert (last + 1) * strip == last * strip + strip;
    if |segs| < ndisks - 1 {
      MulGap(|segs|, ndisks - 1, strip);
    }
  }

  /** The parity of a whole-stripe write is that of its data, whatever was there before. */
  lemma {:induction false} FullParityCorrect(segs: seq<Strip>, strip: nat, ndisks: nat, p: nat, d: Bytes)
    requires Planned(segs, strip, ndisks, p, 0, |d|, 0) && ndisks > 1 && |d| == (ndisks - 1) * strip
    requires forall k | 0 <= k < |segs| :: segs[k].pos + segs[k].len <= |d|
    ensures Uniform(Pieces(segs, d), strip)
    ensures XorAll(Pieces(segs, d), strip) == Expected(d, strip, ndisks, p)[p]
    ensures forall k | 0 <= k < |segs| :: Piece(segs[k], d) == Expected(d, strip, ndisks, p)[DataDisk(k, p)]
  {
    hide Chunks, Tiles, Covers, XorAll, Pieces;
    WholeStripe(segs, strip, ndisks, p, d);
    assert Pieces(segs, d) == Chunks(d, strip, ndisks - 1);
  }

  // Reconstruction and reading.

  /** The same range of every strip. */
  function Slices(ss: seq<Bytes>, strip: nat, lo: nat, len: nat): (r: seq<Bytes>)
    requires Uniform(ss, strip) && lo + len <= strip
    ensures |r| == |ss| && Uniform(r, len) && forall k | 0 <= k < |ss| :: r[k] == ss[k][lo..lo + len]
  {
    if |ss| == 0 then [] else Slices(ss[..|ss| - 1], strip, lo, len) + [ss[|ss| - 1][lo..lo + len]]
  }

  lemma {:induction false} XorAllSlices(ss: seq<Bytes>, strip: nat, lo: nat, len: nat)
    requires Uniform(ss, strip) && lo + len <= strip
    ensures XorAll(Slices(ss, strip, lo, len), len) == XorAll(ss, strip)[lo..lo + len]
  {
    hide XorAll, Column, XorSeq, Slices;
    forall i | 0 <= i < len
      ensures XorAll(Slices(ss, strip, lo, len), len)[i] == XorAll(ss, strip)[lo + i]
    {
      XorAllAt(Slices(ss, strip, lo, len), len, i);
      XorAllAt(ss, strip, lo + i);
      assert Column(Slices(ss, strip, lo, len), len, i) == Column(ss, strip, lo + i);
    }
  }

  /** Reading the same range of all disks but one gives that disk's range. */
  lemma {:induction false} ReconstructCorrect(fs: Bytes, strip: nat, ndisks: nat, p: nat, skip: nat, lo: nat, len: nat)
    requires ndisks > 0 && p < ndisks && skip < ndisks && |fs| == (ndisks - 1) * strip && lo + len <= strip
    ensures var ss := Without(Expected(fs, strip, ndisks, p), skip);
            && Uniform(ss, strip)
            && XorAll(Slices(ss, strip, lo, len), len) == Expected(fs, strip, ndisks, p)[skip][lo..lo + len]
  {
    AnyStripFromOthers(Chunks(fs, strip, ndisks - 1), strip, p, skip);
    XorAllSlices(Without(Expected(fs, strip, ndisks, p), skip), strip, lo, len);
  }

  /** What a segment of a read finds on its disk. */
  lemma {:induction false} ReadPart(fs: Bytes, segs: seq<Strip>, strip: nat, ndisks: nat, p: nat, start: nat, len: nat,
                                    j0: nat, k: nat)
    requires Planned(segs, strip, ndisks, p, start, len, j0) && |fs| == (ndisks - 1) * strip && k < |segs|
    requires segs[k].disk < ndisks && segs[k].off + segs[k].len <= strip
    ensures start + segs[k].pos + segs[k].len <= start + len <= |fs|
    ensures Expected(fs, strip, ndisks, p)[segs[k].disk][segs[k].off..segs[k].off + segs[k].len]
            == fs[start + segs[k].pos..start + segs[k].pos + segs[k].len]
  {
    hide Expected, Tiles, Covers;
    PlannedAt(segs, strip, ndisks, p, start, len, j0, k);
    var base := (j0 + k) * strip;
    ExpectedData(fs, strip, ndisks, p, j0 + k);
    SliceOfSlice(fs, base, strip, segs[k].off, segs[k].len);
  }

  function Concat(parts: seq<Bytes>): Bytes {
    if |parts| == 0 then [] else Concat(parts[..|parts| - 1]) + parts[|parts| - 1]
  }

  /** The segments of a read, put together, are the range asked for. */
  lemma {:induction false} ReadCorrect(fs: Bytes, segs: seq<Strip>, strip: nat, ndisks: nat, p: nat, start: nat,
                                       len: nat, j0: nat, parts: seq<Bytes>)
    requires Planned(segs, strip, ndisks, p, start, len, j0) && |fs| == (ndisks - 1) * strip
    requires |parts| == |segs|
    requires forall k | 0 <= k < |segs| ::
               segs[k].disk < ndisks && segs[k].off + segs[k].len <= strip
               && parts[k] == Expected(fs, strip, ndisks, p)[segs[k].disk][segs[k].off..segs[k].off + segs[k].len]
    ensures Concat(parts) == fs[start..start + len]
  {
    hide Expected, Covers, Concat;
    forall k | 0 <= k < |segs|
      ensures start + segs[k].pos + segs[k].len <= |fs|
      ensures parts[k] == fs[start + segs[k].pos..start + segs[k].pos + segs[k].len]
    {
      ReadPart(fs, segs, strip, ndisks, p, start, len, j0, k);
    }
    ConcatTiles(fs, segs, start, parts, |segs|);
    assert parts[..|segs|] == parts;
  }

  lemma {:induction false} SliceOfSlice(fs: Bytes, base: nat, strip: nat, off: nat, len: nat)
    requires base + strip <= |fs| && off + len <= strip
    ensures fs[base..base + strip][off..off + len] == fs[base + off..base + off + len]
  {
    var part, whole := fs[base..base + strip][off..off + len], fs[base + off..base + off + len];
    assert |part| == |whole| && forall i | 0 <= i < len :: part[i] == whole[i];
  }

  lemma {:induction false} ConcatTiles(fs: Bytes, segs: seq<Strip>, start: nat, parts: seq<Bytes>, k: nat)
    requires |parts| == |segs| && k <= |segs|
    requires |segs| > 0 ==> segs[0].pos == 0
    requires forall i | 0 <= i < |segs| - 1 :: segs[i].pos + segs[i].len == segs[i + 1].pos
    requires forall i | 0 <= i < |segs| ::
               start + segs[i].pos + segs[i].len <= |fs|
               && parts[i] == fs[start + segs[i].pos..start + segs[i].pos + segs[i].len]
    ensures k == 0 ==> Concat(parts[..k]) == []
    ensures k > 0 ==> Concat(parts[..k]) == fs[start..start + segs[k - 1].pos + segs[k - 1].len]
    decreases k
  {
    if k > 0 {
      ConcatTiles(fs, segs, start, parts, k - 1);
      assert parts[..k][..k - 1] == parts[..k - 1];
      assert Concat(parts[..k]) == Concat(parts[..k - 1]) + parts[k - 1];
      if k > 1 {
        var a, b := segs[k - 1].pos, segs[k - 1].pos + segs[k - 1].len;
        assert segs[k - 2].pos + segs[k - 2].len == a;
        assert fs[start..start + a] + fs[start + a..start + b] == fs[start..start + b];
      }
    }
  }
}
