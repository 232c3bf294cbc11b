/** The engine's loops over real buffers: splitting a request into views of its memory, and
    the three parity computations, each shown to compute what the stripe algebra says. */
module Raid5Buffers {
  import opened XorAlgebra
  import opened Geometry
  import opened Strips
  import opened Parity
  import opened StripeQueues
  import opened Raid5Machine
  import SG = ScatterGather

  /** A segment with the view of request memory that holds its data. */
  datatype StripView = StripView(strip: Strip, io: SG.IoRef)

  function Segments(views: seq<StripView>): (r: seq<Strip>)
    ensures |r| == |views| && forall k | 0 <= k < |views| :: r[k] == views[k].strip
  {
    if |views| == 0 then [] else Segments(views[..|views| - 1]) + [views[|views| - 1].strip]
  }

  /** View `v` is the part of the parent's memory its segment says, and is addressed to the right
      place of the disk. */
  ghost predicate ViewOk(v: StripView, parent: SG.IoRef, stripeBase: nat) {
    && v.io.Valid() && v.io.block_len == parent.block_len && v.io.num_blocks == v.strip.len
    && v.io.offset_blocks == stripeBase + v.strip.off
    && (v.strip.pos + v.strip.len) * parent.block_len <= |SG.Addrs(parent.iovs)|
    && v.strip.pos * parent.block_len <= (v.strip.pos + v.strip.len) * parent.block_len
    && SG.Addrs(v.io.iovs)
       == SG.Addrs(parent.iovs)[v.strip.pos * parent.block_len..(v.strip.pos + v.strip.len) * parent.block_len]
  }

  lemma {:induction false} SegmentsNone()
    ensures Segments([]) == []
  {
  }

  lemma {:induction false} SegmentsPush(views: seq<StripView>, v: StripView)
    ensures Segments(views + [v]) == Segments(views) + [v.strip]
  {
  }

  /** Lengths and bounds of one `take` of the split loop. */
  lemma {:induction false} TakeBounds(num: nat, pos: nat, take: nat, bl: nat)
    requires bl > 0 && 0 < take && pos + take <= num
    ensures pos * bl + take * bl == (pos + take) * bl <= num * bl
    ensures take * bl > 0
  {
  }

  lemma {:induction false} TakeFits(total: nat, cursor: nat, bytes: nat)
    requires bytes > 0 && cursor + bytes <= total
    ensures SG.TakeStep(total, cursor, bytes) == (true, cursor + bytes)
  {
  }

  /** The splitter has handed out the first `pos` blocks of a request. */
  ghost predicate TakenUpTo(splitter: SG.IoRefSplitter, ioref: SG.IoRef, pos: nat)
    reads splitter
  {
    && splitter.Valid() && splitter.child_block_len == ioref.block_len && splitter.parent_iovs == ioref.iovs
    && splitter.parent_total_bytes == ioref.num_blocks * ioref.block_len
    && splitter.cursor_bytes == pos * ioref.block_len
  }

  /** The next segment of a request with its view. The splitter never runs short. */
  method TakeView(splitter: SG.IoRefSplitter, ghost ioref: SG.IoRef, strip: Strip, stripeBase: nat)
    returns (view: StripView)
    requires ioref.Valid() && TakenUpTo(splitter, ioref, strip.pos)
    requires strip.len > 0 && strip.pos + strip.len <= ioref.num_blocks
    modifies splitter
    ensures view.strip == strip && ViewOk(view, ioref, stripeBase)
    ensures TakenUpTo(splitter, ioref, strip.pos + strip.len)
  {
    hide ViewOk, SG.Addrs, SG.TakeStep;
    TakeBounds(ioref.num_blocks, strip.pos, strip.len, ioref.block_len);
    TakeFits(splitter.parent_total_bytes, splitter.cursor_bytes, strip.len * ioref.block_len);
    var io := splitter.Take(strip.len);
    view := StripView(strip, io.value.(offset_blocks := stripeBase + strip.off));
    ViewTaken(view, io.value, ioref, stripeBase, splitter.cursor_bytes);
  }

  /** Splits a request, given in blocks, into segments with views of its memory. */
  method SplitViews(ioref: SG.IoRef, base: nat, strip: nat, start: nat, num: nat, parity: nat)
    returns (views: seq<StripView>)
    requires ioref.Valid() && strip > 0 && num <= ioref.num_blocks
    ensures Segments(views) == SplitStrips(strip, parity, start, num)
    ensures forall k | 0 <= k < |views| :: ViewOk(views[k], ioref, base)
  {
    hide ViewOk, Split, Segments, DataDisk;
    SegmentsNone();
    var splitter := new SG.IoRefSplitter(ioref, ioref.block_len);
    views := [];
    var cursor, remain: nat := start, num;
    ghost var end := start + num;
    while remain != 0
      invariant start <= cursor && cursor + remain == end
      invariant TakenUpTo(splitter, ioref, cursor - start)
      invariant Segments(views) + Split(strip, parity, start, end, cursor)
                == Split(strip, parity, start, end, start)
      invariant forall k | 0 <= k < |views| :: ViewOk(views[k], ioref, base)
      decreases remain
    {
      hide TakenUpTo;
      var off := cursor % strip;
      var take := Min(remain, strip - off);
      SplitOne(strip, parity, start, end, cursor);
      var seg := Strip(DataDisk(cursor / strip, parity), off, take, cursor - start);
      var view := TakeView(splitter, ioref, seg, base);
      SegmentsPush(views, view);
      MoveBracket(Segments(views), seg, Split(strip, parity, start, end, cursor + take));
      views := views + [view];
      cursor, remain := cursor + take, remain - take;
    }
    SplitEnd(strip, parity, start, end);
  }

  lemma {:induction false} MoveBracket<T>(a: seq<T>, x: T, b: seq<T>)
    ensures (a + [x]) + b == a + ([x] + b)
  {
  }

  lemma {:induction false} ViewTaken(v: StripView, taken: SG.IoRef, parent: SG.IoRef, stripeBase: nat, cursor: nat)
    requires taken.Valid() && v.io == taken.(offset_blocks := stripeBase + v.strip.off)
    requires taken.block_len == parent.block_len && taken.num_blocks == v.strip.len
    requires v.strip.pos * parent.block_len <= cursor <= |SG.Addrs(parent.iovs)|
    requires cursor == (v.strip.pos + v.strip.len) * parent.block_len
    requires SG.Addrs(taken.iovs) == SG.Addrs(parent.iovs)[v.strip.pos * parent.block_len..cursor]
    ensures ViewOk(v, parent, stripeBase)
  {
  }

  /** A view holds exactly the piece of the request's bytes its segment carries. */
  lemma {:induction false} ViewHoldsPiece(mem: Bytes, v: StripView, parent: SG.IoRef, stripeBase: nat)
    requires ViewOk(v, parent, stripeBase) && SG.Fits(parent.iovs, |mem|) && SG.Fits(v.io.iovs, |mem|)
    ensures var s := Scale(v.strip, parent.block_len);
            && s.pos + s.len <= |SG.Gather(mem, parent.iovs)|
            && SG.Gather(mem, v.io.iovs) == Piece(s, SG.Gather(mem, parent.iovs))
  {
    hide SG.Addrs, SG.Gather;
    var bl := parent.block_len;
    assert (v.strip.pos + v.strip.len) * bl == v.strip.pos * bl + v.strip.len * bl;
    SG.GatherSlice(mem, parent.iovs, v.io.iovs, v.strip.pos * bl, (v.strip.pos + v.strip.len) * bl);
  }

  lemma {:induction false} TilesInOrder(views: seq<StripView>, strip: nat, parity: nat, start: nat, num: nat)
    requires strip > 0 && Segments(views) == SplitStrips(strip, parity, start, num)
    ensures |views| == 0 ==> num == 0
    ensures |views| > 0 ==>
              views[0].strip.pos == 0 && views[|views| - 1].strip.pos + views[|views| - 1].strip.len == num
    ensures forall k | 0 <= k < |views| - 1 :: views[k].strip.pos + views[k].strip.len == views[k + 1].strip.pos
  {
    hide Covers, Split;
    var segs := SplitStrips(strip, parity, start, num);
    SplitTiles(strip, parity, start, start + num, start, start / strip, start % strip);
    forall k | 0 <= k < |views| - 1
      ensures views[k].strip.pos + views[k].strip.len == views[k + 1].strip.pos
    {
      assert segs[k].pos + segs[k].len == segs[k + 1].pos;
    }
  }

  /** When every view of a request holds its part of a read, in whatever order they were filled,
      the request's memory holds the parts put together. */
  lemma {:induction false} RequestFromViews(mem: Bytes, views: seq<StripView>, parent: SG.IoRef, stripeBase: nat,
                                            strip: nat, parity: nat, start: nat, parts: seq<Bytes>)
    requires parent.Valid() && strip > 0 && SG.Fits(parent.iovs, |mem|)
    requires Segments(views) == SplitStrips(strip, parity, start, parent.num_blocks) && |parts| == |views|
    requires forall k | 0 <= k < |views| ::
               ViewOk(views[k], parent, stripeBase) && SG.Fits(views[k].io.iovs, |mem|)
               && SG.Gather(mem, views[k].io.iovs) == parts[k]
    ensures Concat(parts) == SG.Gather(mem, parent.iovs)
  {
    hide SG.Addrs, SG.Gather, SplitStrips, ViewOk, Concat, Segments, ScaleAll;
    var bl, all, n := parent.block_len, SG.Gather(mem, parent.iovs), |views|;
    var segs := ScaleAll(Segments(views), bl);
    TilesInOrder(views, strip, parity, start, parent.num_blocks);
    forall k | 0 <= k < n
      ensures segs[k].pos + segs[k].len == (views[k].strip.pos + views[k].strip.len) * bl
      ensures segs[k].pos + segs[k].len <= |all| && parts[k] == all[segs[k].pos..segs[k].pos + segs[k].len]
    {
      ViewHoldsPiece(mem, views[k], parent, stripeBase);
      MulSum(views[k].strip.pos, views[k].strip.len, bl);
    }
    ConcatTiles(all, segs, 0, parts, n);
    assert parts[..n] == parts;
  }

  lemma {:induction false} MulSum(a: nat, b: nat, k: nat)
    ensures (a + b) * k == a * k + b * k
  {
  }

  // Parity.

  /** What a list of buffers holds. */
  ghost function Held(bufs: seq<array<bv8>>): (r: seq<Bytes>)
    reads bufs
    ensures |r| == |bufs| && forall k | 0 <= k < |bufs| :: r[k] == bufs[k][..]
  {
    if |bufs| == 0 then [] else Held(bufs[..|bufs| - 1]) + [bufs[|bufs| - 1][..]]
  }

  /** One iovec for a whole buffer. */
  function Whole(len: nat): seq<SG.Iov> { [SG.Iov(0, len)] }

  lemma {:induction false} GatherWhole(m: Bytes)
    ensures |SG.Addrs(Whole(|m|))| == |m| && SG.Gather(m, Whole(|m|)) == m
  {
  }

  lemma {:induction false} XoredIsXorIn(was: Bytes, now: Bytes, at: nat, s: Bytes)
    requires XoredAt(was, now, at, s)
    ensures now == XorIn(was, at, s)
  {
  }

  lemma {:induction false} XorInWhole(was: Bytes, s: Bytes)
    requires |was| == |s|
    ensures XorIn(was, 0, s) == XorBytes(was, s)
  {
  }

  lemma {:induction false} XorZeros(s: Bytes)
    ensures XorBytes(Zeros(|s|), s) == s
  {
  }

  /** dst[start..] ^= a whole buffer. */
  method XorBuf(dst: array<bv8>, start: nat, buf: array<bv8>)
    requires dst != buf && start + buf.Length <= dst.Length
    modifies dst
    ensures dst[..] == XorIn(old(dst[..]), start, buf[..])
  {
    GatherWhole(buf[..]);
    SG.Xor(dst, start, buf.Length, buf, Whole(buf.Length));
    XoredIsXorIn(old(dst[..]), dst[..], start, buf[..]);
  }

  /** dst[start..] ^= a view of request memory. */
  method XorView(dst: array<bv8>, start: nat, mem: array<bv8>, io: SG.IoRef)
    requires dst != mem && io.Valid() && SG.Fits(io.iovs, mem.Length)
    requires start + io.num_blocks * io.block_len <= dst.Length
    modifies dst
    ensures dst[..] == XorIn(old(dst[..]), start, SG.Gather(mem[..], io.iovs))
  {
    SG.Xor(dst, start, io.num_blocks * io.block_len, mem, io.iovs);
    XoredIsXorIn(old(dst[..]), dst[..], start, SG.Gather(mem[..], io.iovs));
  }

  method ZeroedBuf(len: nat) returns (buf: array<bv8>)
    ensures fresh(buf) && buf[..] == Zeros(len)
  {
    buf := new bv8[len];
    for i := 0 to len
      invariant forall x | 0 <= x < i :: buf[x] == 0
    {
      buf[i] := 0;
    }
  }

  /** What the views of a request carry: for each segment, its piece of data `d`. */
  ghost predicate Carry(mem: Bytes, ios: seq<SG.IoRef>, segs: seq<Strip>, d: Bytes) {
    && |ios| == |segs|
    && forall k | 0 <= k < |segs| ::
         && ios[k].Valid() && SG.Fits(ios[k].iovs, |mem|) && ios[k].num_blocks * ios[k].block_len == segs[k].len
         && segs[k].pos + segs[k].len <= |d| && SG.Gather(mem, ios[k].iovs) == Piece(segs[k], d)
  }

  lemma {:induction false} CarryAt(mem: Bytes, ios: seq<SG.IoRef>, segs: seq<Strip>, d: Bytes, k: nat)
    requires Carry(mem, ios, segs, d) && k < |segs|
    ensures k < |ios| && ios[k].Valid() && SG.Fits(ios[k].iovs, |mem|)
    ensures ios[k].num_blocks * ios[k].block_len == segs[k].len
    ensures segs[k].pos + segs[k].len <= |d| && SG.Gather(mem, ios[k].iovs) == Piece(segs[k], d)
  {
  }

  /** Phase 2 of a partial write: new parity from old parity, old data and new data. */
  method RmwParity(mem: array<bv8>, ios: seq<SG.IoRef>, segs: seq<Strip>, oldBufs: seq<array<bv8>>,
                   oldParity: array<bv8>, ghost d: Bytes)
    returns (buf: array<bv8>)
    requires Carry(mem[..], ios, segs, d) && Fitting(segs, oldParity.Length, Held(oldBufs), d)
    ensures fresh(buf) && buf[..] == Rmw(oldParity[..], segs, Held(oldBufs), d, |segs|)
  {
    hide Carry, Rmw, XorIn, SG.Gather, SG.Addrs, XorBytes, Zeros;
    buf := ZeroedBuf(oldParity.Length);
    ghost var m, olds, p := mem[..], Held(oldBufs), oldParity[..];
    XorInWhole(buf[..], p);
    XorZeros(p);
    XorBuf(buf, 0, oldParity);
    RmwNone(p, segs, olds, d);
    for k := 0 to |segs|
      invariant buf[..] == Rmw(p, segs, olds, d, k)
    {
      CarryAt(m, ios, segs, d, k);
      RmwNext(p, segs, olds, d, k);
      assert oldBufs[k][..] == olds[k];
      XorBuf(buf, segs[k].off, oldBufs[k]);
      XorView(buf, segs[k].off, mem, ios[k]);
    }
  }

  lemma {:induction false} RmwNone(p: Bytes, segs: seq<Strip>, olds: seq<Bytes>, d: Bytes)
    requires Fitting(segs, |p|, olds, d)
    ensures Rmw(p, segs, olds, d, 0) == p
  {
  }

  lemma {:induction false} RmwNext(p: Bytes, segs: seq<Strip>, olds: seq<Bytes>, d: Bytes, k: nat)
    requires Fitting(segs, |p|, olds, d) && k < |segs|
    ensures Rmw(p, segs, olds, d, k + 1)
            == XorIn(XorIn(Rmw(p, segs, olds, d, k), segs[k].off, olds[k]), segs[k].off, Piece(segs[k], d))
  {
  }

  /** Parity of a whole-stripe write: the exclusive-or of its strips. */
  method FullParity(mem: array<bv8>, ios: seq<SG.IoRef>, segs: seq<Strip>, strip: nat, ghost d: Bytes)
    returns (acc: array<bv8>)
    requires Carry(mem[..], ios, segs, d) && forall k | 0 <= k < |segs| :: segs[k].len == strip
    ensures forall k | 0 <= k < |segs| :: segs[k].pos + segs[k].len <= |d|
    ensures Uniform(Pieces(segs, d), strip) && fresh(acc) && acc[..] == XorAll(Pieces(segs, d), strip)
  {
    hide Carry, XorIn, SG.Gather, SG.Addrs, XorBytes, XorAll, Pieces;
    ghost var m := mem[..];
    forall k | 0 <= k < |segs|
      ensures segs[k].pos + segs[k].len <= |d|
    {
      CarryAt(m, ios, segs, d, k);
    }
    ghost var pieces := Pieces(segs, d);
    acc := ZeroedBuf(strip);
    XorAllNone(pieces, strip);
    for k := 0 to |segs|
      invariant acc[..] == XorAll(pieces[..k], strip)
    {
      CarryAt(m, ios, segs, d, k);
      XorAllNext(pieces, strip, k);
      XorInWhole(acc[..], pieces[k]);
      XorView(acc, 0, mem, ios[k]);
    }
    assert pieces[..|segs|] == pieces;
  }

  lemma {:induction false} XorAllNone(ss: seq<Bytes>, len: nat)
    ensures XorAll(ss[..0], len) == Zeros(len)
  {
  }

  lemma {:induction false} XorAllNext(ss: seq<Bytes>, len: nat, k: nat)
    requires Uniform(ss, len) && k < |ss|
    ensures XorAll(ss[..k + 1], len) == XorBytes(XorAll(ss[..k], len), ss[k])
  {
    assert ss[..k + 1][..k] == ss[..k];
  }

  // Awaiting a batch.

  lemma {:induction false} FailuresNext(ios: seq<ChildIo>, k: nat)
    requires k < |ios|
    ensures Failures(ios[..k + 1]) == Failures(ios[..k]) + (if Failed(ios[k]) then [k] else [])
  {
    assert ios[..k + 1][..k] == ios[..k];
  }

  lemma {:induction false} NoneYet(ios: seq<ChildIo>)
    ensures Failures(ios[..0]) == []
  {
  }

  /** The segments of a read whose child I/O failed. */
  method FailedSegments(ios: seq<ChildIo>) returns (failed: seq<nat>)
    requires AllDone(ios)
    ensures failed == Failures(ios)
  {
    failed := [];
    for k := 0 to |ios|
      invariant failed == Failures(ios[..k])
    {
      FailuresNext(ios, k);
      if !ios[k].out.ok {
        failed := failed + [k];
      }
    }
    assert ios[..|ios|] == ios;
  }

  /** How many child I/Os failed, and the disk of the last one. */
  method CountFailures(ios: seq<ChildIo>) returns (nfailures: nat, lastFailedDisk: Option<nat>)
    requires AllDone(ios)
    ensures nfailures == |Failures(ios)|
    ensures lastFailedDisk == if nfailures == 0 then None else Some(ios[Failures(ios)[nfailures - 1]].disk)
  {
    hide Failures;
    nfailures, lastFailedDisk := 0, None;
    assert Failures(ios[..0]) == [] by { NoneYet(ios); }
    ghost var failed: seq<nat> := [];
    for k := 0 to |ios|
      invariant failed == Failures(ios[..k]) && nfailures == |failed|
      invariant forall i <- failed :: i < |ios|
      invariant lastFailedDisk == if nfailures == 0 then None else Some(ios[failed[nfailures - 1]].disk)
    {
      FailuresNext(ios, k);
      failed := Failures(ios[..k + 1]);
      if !ios[k].out.ok {
        nfailures := nfailures + 1;
        lastFailedDisk := Some(ios[k].disk);
      }
    }
    assert ios[..|ios|] == ios;
  }

  /** The write failure policy, as coded. */
  method WriteStatus(nfailures: nat) returns (status: Status)
    ensures status == Success <==> nfailures == 0
  {
    if nfailures == 0 {
      status := Success;
    } else if nfailures == 1 {
      status := Failure;
    } else {
      status := Failure;
    }
  }

  /** Reconstruction of one strip's range from what was read from the other disks, given up at
      the first read that failed. */
  method Reconstruct(ios: seq<ChildIo>, bufs: seq<array<bv8>>, len: nat) returns (r: Option<array<bv8>>)
    requires RepairSettled(ios) && |bufs| == |ios| && Uniform(Held(bufs), len)
    ensures r.None? <==> Failures(ios) != []
    ensures r.Some? ==> AllDone(ios) && fresh(r.value) && r.value[..] == XorAll(Held(bufs), len)
  {
    hide XorAll, Held;
    for k := 0 to |ios|
      invariant AllDone(ios[..k]) && Failures(ios[..k]) == []
    {
      AwaitNext(ios, k);
      FailuresNext(ios, k);
      if !ios[k].out.ok {
        FailuresGrow(ios, k + 1);
        return None;
      }
    }
    assert ios[..|ios|] == ios;
    var acc := XorOf(bufs, len);
    r := Some(acc);
  }

  /** The await loop of a reconstruction only meets reads that are done. */
  lemma {:induction false} AwaitNext(ios: seq<ChildIo>, k: nat)
    requires RepairSettled(ios) && k < |ios| && AllDone(ios[..k]) && Failures(ios[..k]) == []
    ensures ios[k].out.Done? && AllDone(ios[..k + 1])
  {
  }

  lemma {:induction false} FailuresGrow(ios: seq<ChildIo>, k: nat)
    requires k <= |ios| && Failures(ios[..k]) != []
    ensures Failures(ios) != []
  {
    var i := Failures(ios[..k])[0];
    assert Failed(ios[i]);
    assert i in Failures(ios);
  }

  /** The exclusive-or of buffers of one length. */
  method XorOf(bufs: seq<array<bv8>>, len: nat) returns (acc: array<bv8>)
    requires Uniform(Held(bufs), len)
    ensures fresh(acc) && acc[..] == XorAll(Held(bufs), len)
  {
    hide XorIn, XorBytes, XorAll;
    ghost var ss := Held(bufs);
    acc := ZeroedBuf(len);
    XorAllNone(ss, len);
    for k := 0 to |bufs|
      invariant acc[..] == XorAll(ss[..k], len)
    {
      XorAllNext(ss, len, k);
      assert bufs[k][..] == ss[k];
      XorInWhole(acc[..], ss[k]);
      XorBuf(acc, 0, bufs[k]);
    }
    assert ss[..|bufs|] == ss;
  }
}
