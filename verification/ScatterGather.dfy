/** Scatter/gather lists: the zero-copy splitter and the byte loops over iovecs. */
module ScatterGather {
  import opened XorAlgebra

  datatype Result<+T> = Ok(value: T) | OutOfRange

  /** One segment of request memory. */
  datatype Iov = Iov(base: nat, len: nat)

  function Span(base: nat, len: nat): (r: seq<nat>)
    ensures |r| == len
  {
    seq(len, i requires 0 <= i => base + i)
  }

  /** The memory addresses a list of iovecs describes, in order. */
  function Addrs(iovs: seq<Iov>): seq<nat> {
    if |iovs| == 0 then [] else Span(iovs[0].base, iovs[0].len) + Addrs(iovs[1..])
  }

  lemma {:induction false} AddrsPush(iovs: seq<Iov>, v: Iov)
    ensures Addrs(iovs + [v]) == Addrs(iovs) + Span(v.base, v.len)
  {
    if |iovs| == 0 {
      assert iovs + [v] == [v];
      assert Addrs([v]) == Span(v.base, v.len) + Addrs([v][1..]);
    } else {
      AddrsPush(iovs[1..], v);
      assert (iovs + [v])[1..] == iovs[1..] + [v];
    }
  }

  /** The rest of a list, seen from its k-th iovec. */
  lemma {:induction false} AddrsFrom(iovs: seq<Iov>, k: nat)
    requires k < |iovs|
    ensures Addrs(iovs[k..]) == Span(iovs[k].base, iovs[k].len) + Addrs(iovs[k + 1..])
  {
  }

  /** An iovec added to a list that describes all[start..from]. */
  lemma {:induction false} SlicePush(all: seq<nat>, result: seq<Iov>, v: Iov, start: nat, from: nat)
    requires start <= from && from + v.len <= |all|
    requires Addrs(result) == all[start..from] && all[from..from + v.len] == Span(v.base, v.len)
    ensures Addrs(result + [v]) == all[start..from + v.len]
  {
    AddrsPush(result, v);
    assert all[start..from + v.len] == all[start..from] + all[from..from + v.len];
  }

  /** Part of a span inside a longer sequence. */
  lemma {:induction false} SpanPart(all: seq<nat>, m: nat, v: Iov, off: nat, take: nat)
    requires m + v.len <= |all| && all[m..m + v.len] == Span(v.base, v.len) && off + take <= v.len
    ensures all[m + off..m + off + take] == Span(v.base + off, take)
  {
    forall x | m + off <= x < m + off + take
      ensures all[x] == v.base + (x - m)
    {
      assert all[x] == all[m..m + v.len][x - m];
    }
  }

  /** The first piece of what remains of a sequence. */
  lemma {:induction false} PieceAt<T>(data: seq<T>, pos: nat, piece: seq<T>, rest: seq<T>)
    requires pos <= |data| && data[pos..] == piece + rest
    ensures pos + |piece| <= |data|
    ensures data[pos..pos + |piece|] == piece && data[pos + |piece|..] == rest
    ensures forall i | pos <= i < pos + |piece| :: piece[i - pos] == data[i]
  {
  }

  /** Where SliceIovs stands before iovec k: nothing taken yet and `off` bytes still to skip, or
      everything taken so far ends where iovec k begins. */
  ghost predicate SliceAt(iovs: seq<Iov>, k: nat, m: nat, offset: nat, len: nat, off: nat, rest: nat, result: seq<Iov>)
    requires k <= |iovs|
  {
    && m <= |Addrs(iovs)| && Addrs(iovs)[m..] == Addrs(iovs[k..])
    && rest <= len
    && (result == [] ==> rest == len && offset == m + off)
    && (result != [] ==> off == 0 && 0 < rest && offset + (len - rest) == m && Addrs(result) == Addrs(iovs)[offset..m])
    && (len > 0 ==> forall v <- result :: v.len > 0)
  }

  lemma {:induction false} SliceSkip(iovs: seq<Iov>, k: nat, m: nat, offset: nat, len: nat, off: nat, rest: nat,
                                     result: seq<Iov>)
    requires k < |iovs| && SliceAt(iovs, k, m, offset, len, off, rest, result) && off >= iovs[k].len
    ensures SliceAt(iovs, k + 1, m + iovs[k].len, offset, len, off - iovs[k].len, rest, result)
  {
  }

  lemma {:induction false} SliceTake(iovs: seq<Iov>, k: nat, m: nat, offset: nat, len: nat, off: nat, rest: nat,
                                     result: seq<Iov>, take: nat)
    requires k < |iovs| && SliceAt(iovs, k, m, offset, len, off, rest, result) && off < iovs[k].len
    requires take == if iovs[k].len - off <= rest then iovs[k].len - off else rest
    ensures var now := result + [Iov(iovs[k].base + off, take)];
            && offset + (len - rest) + (if len == 0 then 1 else take) <= |Addrs(iovs)|
            && Addrs(now) == Addrs(iovs)[offset..offset + (len - rest) + take]
            && (len > 0 ==> forall v <- now :: v.len > 0)
            && (take < rest ==> SliceAt(iovs, k + 1, m + iovs[k].len, offset, len, 0, rest - take, now))
  {
    hide Addrs, Span;
    var v, all := iovs[k], Addrs(iovs);
    AddrsFrom(iovs, k);
    PieceAt(all, m, Span(v.base, v.len), Addrs(iovs[k + 1..]));
    SpanPart(all, m, v, off, take);
    if result == [] {
      AddrsNone();
      assert all[offset..offset] == [];
    }
    SlicePush(all, result, Iov(v.base + off, take), offset, m + off);
  }

  lemma {:induction false} AddrsNone()
    ensures Addrs([]) == []
  {
  }

  /** The sub-list of iovecs for bytes [offset, offset + len) of the list. A request for no
      bytes answers with one empty iovec, except at the very end, where it fails. */
  method SliceIovs(iovs: seq<Iov>, offset: nat, len: nat) returns (r: Result<seq<Iov>>)
    ensures r.Ok? <==> offset + (if len == 0 then 1 else len) <= |Addrs(iovs)|
    ensures r.Ok? ==> Addrs(r.value) == Addrs(iovs)[offset..offset + len]
    ensures r.Ok? && len > 0 ==> forall v <- r.value :: v.len > 0
  {
    var off: nat, rest: nat := offset, len;
    var result: seq<Iov> := [];
    ghost var m: nat := 0;
    for k := 0 to |iovs|
      invariant SliceAt(iovs, k, m, offset, len, off, rest, result)
    {
      var v := iovs[k];
      if off >= v.len {
        SliceSkip(iovs, k, m, offset, len, off, rest, result);
        m, off := m + v.len, off - v.len;
        continue;
      }
      var avail := v.len - off;
      var take := if avail <= rest then avail else rest;
      SliceTake(iovs, k, m, offset, len, off, rest, result, take);
      result := result + [Iov(v.base + off, take)];
      m, rest, off := m + v.len, rest - take, 0;
      if rest == 0 {
        return Ok(result);
      }
    }
    return OutOfRange;
  }

  /** A zero-copy view of (part of) a request. */
  datatype IoRef = IoRef(iovs: seq<Iov>, offset_blocks: nat, ref_offset: nat, num_blocks: nat, block_len: nat) {
    predicate Valid() { block_len > 0 && |Addrs(iovs)| == num_blocks * block_len }
  }

  /** What one `take` does to a cursor over `total` bytes. */
  ghost function TakeStep(total: nat, cursor: nat, bytes: nat): (r: (bool, nat))
  {
    if cursor + (if bytes == 0 then 1 else bytes) <= total then (true, cursor + bytes) else (false, cursor)
  }

  /** Hands out consecutive pieces of a request. */
  class IoRefSplitter {
    const parent_iovs: seq<Iov>
    const parent_total_bytes: nat
    const child_block_len: nat
    var cursor_bytes: nat

    ghost predicate Valid()
      reads this
    {
      && child_block_len > 0
      && parent_total_bytes == |Addrs(parent_iovs)|
      && cursor_bytes <= parent_total_bytes
    }

    constructor (parent: IoRef, child_block_len: nat)
      requires parent.Valid() && child_block_len > 0
      ensures Valid() && cursor_bytes == 0
      ensures parent_iovs == parent.iovs && this.child_block_len == child_block_len
      ensures parent_total_bytes == parent.num_blocks * parent.block_len
    {
      parent_iovs := parent.iovs;
      parent_total_bytes := parent.num_blocks * parent.block_len;
      this.child_block_len := child_block_len;
      cursor_bytes := 0;
    }

    method Take(blocks: nat) returns (r: Result<IoRef>)
      requires Valid()
      modifies this
      ensures Valid()
      ensures (r.Ok?, cursor_bytes) == TakeStep(parent_total_bytes, old(cursor_bytes), blocks * child_block_len)
      ensures r.Ok? ==>
        && r.value.Valid()
        && r.value.num_blocks == blocks && r.value.block_len == child_block_len
        && r.value.offset_blocks == 0 && r.value.ref_offset == old(cursor_bytes) / child_block_len
        && Addrs(r.value.iovs) == Addrs(parent_iovs)[old(cursor_bytes)..cursor_bytes]
    {
      var bytes := blocks * child_block_len;
      if cursor_bytes + bytes > parent_total_bytes {
        return OutOfRange;
      }
      var s := SliceIovs(parent_iovs, cursor_bytes, bytes);
      if s.OutOfRange? {
        return OutOfRange;
      }
      r := Ok(IoRef(s.value, 0, cursor_bytes / child_block_len, blocks, child_block_len));
      cursor_bytes := cursor_bytes + bytes;
    }
  }

  /** The pieces handed out by a series of takes, failed ones giving nothing. */
  ghost function Pieces(parent: seq<nat>, cursor: nat, sizes: seq<nat>): (r: (seq<nat>, nat))
    requires cursor <= |parent|
    decreases |sizes|
  {
    if |sizes| == 0 then ([], cursor)
    else
      var (ok, next) := TakeStep(|parent|, cursor, sizes[0]);
      var (rest, last) := Pieces(parent, next, sizes[1..]);
      ((if ok then parent[cursor..next] else []) + rest, last)
  }

  /** Whatever is asked for, the pieces that are handed out follow one another without gap
      or overlap, so that together they are the part of the request the cursor passed. */
  lemma {:induction false} PiecesAreConsecutive(parent: seq<nat>, cursor: nat, sizes: seq<nat>)
    requires cursor <= |parent|
    ensures cursor <= Pieces(parent, cursor, sizes).1 <= |parent|
    ensures Pieces(parent, cursor, sizes).0 == parent[cursor..Pieces(parent, cursor, sizes).1]
    decreases |sizes|
  {
    if |sizes| > 0 {
      PiecesAreConsecutive(parent, TakeStep(|parent|, cursor, sizes[0]).1, sizes[1..]);
    }
  }

  // Byte loops over request memory.

  ghost predicate Fits(iovs: seq<Iov>, size: nat) {
    forall v <- iovs :: v.base + v.len <= size
  }

  /** The bytes a list of iovecs describes, in order. */
  function Gather(mem: Bytes, iovs: seq<Iov>): (r: Bytes)
    requires Fits(iovs, |mem|)
    ensures |r| == |Addrs(iovs)|
  {
    if |iovs| == 0 then []
    else mem[iovs[0].base..iovs[0].base + iovs[0].len] + Gather(mem, iovs[1..])
  }

  /** Memory after `data` is copied, iovec by iovec, to where the list points. */
  ghost function Scatter(mem: Bytes, iovs: seq<Iov>, data: Bytes): (r: Bytes)
    requires Fits(iovs, |mem|) && |data| == |Addrs(iovs)|
    ensures |r| == |mem|
    decreases |iovs|
  {
    if |iovs| == 0 then mem
    else Scatter(Splice(mem, iovs[0].base, data[..iovs[0].len]), iovs[1..], data[iovs[0].len..])
  }

  /** The bytes of iovec k, when `data` from `pos` on is what iovecs k.. describe. */
  lemma {:induction false} GatherHead(mem: Bytes, iovs: seq<Iov>, k: nat, data: Bytes, pos: nat)
    requires k < |iovs| && Fits(iovs, |mem|)
    requires pos <= |data| && data[pos..] == Gather(mem, iovs[k..])
    ensures pos + iovs[k].len <= |data|
    ensures data[pos..pos + iovs[k].len] == mem[iovs[k].base..iovs[k].base + iovs[k].len]
    ensures data[pos + iovs[k].len..] == Gather(mem, iovs[k + 1..])
  {
  }

  /** Byte i of the gathered data is the byte at the i-th address. */
  lemma {:induction false} GatherAt(mem: Bytes, iovs: seq<Iov>, i: nat)
    requires Fits(iovs, |mem|) && i < |Addrs(iovs)|
    ensures Addrs(iovs)[i] < |mem| && Gather(mem, iovs)[i] == mem[Addrs(iovs)[i]]
    decreases |iovs|
  {
    if i >= iovs[0].len {
      GatherAt(mem, iovs[1..], i - iovs[0].len);
    }
  }

  /** A child that describes a piece of its parent's addresses holds that piece of its bytes. */
  lemma {:induction false} GatherSlice(mem: Bytes, parent: seq<Iov>, child: seq<Iov>, from: nat, to: nat)
    requires Fits(parent, |mem|) && Fits(child, |mem|)
    requires from <= to <= |Addrs(parent)| && Addrs(child) == Addrs(parent)[from..to]
    ensures Gather(mem, child) == Gather(mem, parent)[from..to]
  {
    forall i | 0 <= i < to - from
      ensures Gather(mem, child)[i] == Gather(mem, parent)[from..to][i]
    {
      GatherAt(mem, child, i);
      GatherAt(mem, parent, from + i);
    }
  }

  /** dst[at..] ^= one segment. */
  method XorSpan(dst: array<bv8>, at: nat, seg: Bytes)
    requires at + |seg| <= dst.Length
    modifies dst
    ensures XoredAt(old(dst[..]), dst[..], at, seg)
  {
    for i := 0 to |seg|
      invariant forall x | 0 <= x < dst.Length ::
        dst[x] == if at <= x < at + i then old(dst[x]) ^ seg[x - at] else old(dst[x])
    {
      dst[at + i] := dst[at + i] ^ seg[i];
    }
  }

  lemma {:induction false} XorNext(d0: Bytes, d1: Bytes, d2: Bytes, start: nat, data: Bytes, pos: nat, end: nat)
    requires pos <= end <= |data|
    requires XoredAt(d0, d1, start, data[..pos]) && XoredAt(d1, d2, start + pos, data[pos..end])
    ensures XoredAt(d0, d2, start, data[..end])
  {
  }

  /** dst[start..start + len] ^= the bytes of the list. */
  method Xor(dst: array<bv8>, start: nat, len: nat, mem: array<bv8>, iovs: seq<Iov>)
    requires dst != mem && start + len <= dst.Length
    requires Fits(iovs, mem.Length) && |Addrs(iovs)| == len
    modifies dst
    ensures XoredAt(old(dst[..]), dst[..], start, Gather(mem[..], iovs))
  {
    hide Addrs, Span, Gather, XoredAt;
    var pos: nat := 0;
    ghost var m, d0 := mem[..], dst[..];
    ghost var data := Gather(m, iovs);
    XoredNothing(d0, start, data[..0]);
    for k := 0 to |iovs|
      invariant pos <= len && data[pos..] == Gather(m, iovs[k..])
      invariant XoredAt(d0, dst[..], start, data[..pos])
    {
      GatherHead(m, iovs, k, data, pos);
      ghost var d1 := dst[..];
      var end := pos + iovs[k].len;
      var seg := mem[iovs[k].base..iovs[k].base + iovs[k].len];
      assert seg == data[pos..end];
      XorSpan(dst, start + pos, seg);
      XorNext(d0, d1, dst[..], start, data, pos, end);
      pos := end;
    }
    GatherNone(m, iovs);
    assert data[..pos] == data;
  }

  lemma {:induction false} XoredNothing(d: Bytes, at: nat, s: Bytes)
    requires at <= |d| && s == []
    ensures XoredAt(d, d, at, s)
  {
  }

  lemma {:induction false} GatherNone(mem: Bytes, iovs: seq<Iov>)
    requires Fits(iovs, |mem|)
    ensures Gather(mem, iovs[|iovs|..]) == []
  {
  }

  /** A copy between two buffers. */
  method CopySpan(src: array<bv8>, from: nat, dst: array<bv8>, to: nat, len: nat)
    requires dst != src && from + len <= src.Length && to + len <= dst.Length
    modifies dst
    ensures dst[..] == Splice(old(dst[..]), to, src[from..from + len])
  {
    for i := 0 to len
      invariant forall x | 0 <= x < dst.Length ::
        dst[x] == if to <= x < to + i then src[from + (x - to)] else old(dst[x])
    {
      dst[to + i] := src[from + i];
    }
  }

  /** Copies a scattered request into one new buffer. */
  method ToBuf(mem: array<bv8>, io: IoRef) returns (buf: array<bv8>)
    requires io.Valid() && Fits(io.iovs, mem.Length)
    ensures fresh(buf) && buf[..] == Gather(mem[..], io.iovs)
  {
    hide Addrs, Span;
    var iovs := io.iovs;
    buf := new bv8[io.num_blocks * io.block_len];
    var dst_offset: nat := 0;
    ghost var m := mem[..];
    ghost var data := Gather(m, iovs);
    for k := 0 to |iovs|
      invariant dst_offset <= |data| && data[dst_offset..] == Gather(m, iovs[k..])
      invariant forall i | 0 <= i < dst_offset :: buf[i] == data[i]
    {
      GatherHead(m, iovs, k, data, dst_offset);
      CopySpan(mem, iovs[k].base, buf, dst_offset, iovs[k].len);
      dst_offset := dst_offset + iovs[k].len;
    }
  }

  /** Copies one buffer into scattered request memory. */
  method CopyFromSlice(mem: array<bv8>, io: IoRef, data: array<bv8>)
    requires io.Valid() && Fits(io.iovs, mem.Length) && data != mem
    requires data.Length == io.num_blocks * io.block_len
    modifies mem
    ensures mem[..] == Scatter(old(mem[..]), io.iovs, data[..])
  {
    hide Splice, Addrs, Span;
    var iovs := io.iovs;
    ghost var all := Scatter(mem[..], iovs, data[..]);
    ghost var rest := data[..];
    var pos: nat := 0;
    for k := 0 to |iovs|
      invariant pos <= data.Length && rest == data[pos..] && |rest| == |Addrs(iovs[k..])|
      invariant Scatter(mem[..], iovs[k..], rest) == all
    {
      ScatterFrom(mem[..], iovs, k, rest);
      var len := iovs[k].len;
      assert rest[..len] == data[pos..pos + len] && rest[len..] == data[pos + len..];
      CopySpan(data, pos, mem, iovs[k].base, len);
      rest := rest[len..];
      pos := pos + len;
    }
  }

  lemma {:induction false} ScatterFrom(mem: Bytes, iovs: seq<Iov>, k: nat, d: Bytes)
    requires k < |iovs| && Fits(iovs, |mem|) && |d| == |Addrs(iovs[k..])|
    ensures iovs[k].len + |Addrs(iovs[k + 1..])| == |d|
    ensures Scatter(mem, iovs[k..], d)
            == Scatter(Splice(mem, iovs[k].base, d[..iovs[k].len]), iovs[k + 1..], d[iovs[k].len..])
  {
  }

  /** No two segments share a byte. */
  ghost predicate Disjoint(iovs: seq<Iov>) {
    forall i, j | 0 <= i < j < |iovs| :: Apart(iovs[i], iovs[j])
  }

  ghost predicate Apart(u: Iov, v: Iov) {
    u.base + u.len <= v.base || v.base + v.len <= u.base
  }

  /** A run of bytes apart from every segment is left as it was. */
  lemma {:induction false} ScatterApart(mem: Bytes, iovs: seq<Iov>, data: Bytes, u: Iov)
    requires Fits(iovs, |mem|) && |data| == |Addrs(iovs)|
    requires u.base + u.len <= |mem| && forall v <- iovs :: Apart(u, v)
    ensures Scatter(mem, iovs, data)[u.base..u.base + u.len] == mem[u.base..u.base + u.len]
    decreases |iovs|
  {
    if |iovs| > 0 {
      var v := iovs[0];
      assert Apart(u, v);
      var next := Splice(mem, v.base, data[..v.len]);
      ScatterApart(next, iovs[1..], data[v.len..], u);
      assert next[u.base..u.base + u.len] == mem[u.base..u.base + u.len];
    }
  }

  /** Nothing outside the segments is written. */
  lemma {:induction false} ScatterOutside(mem: Bytes, iovs: seq<Iov>, data: Bytes, x: nat)
    requires Fits(iovs, |mem|) && |data| == |Addrs(iovs)|
    requires x < |mem| && forall v <- iovs :: x < v.base || v.base + v.len <= x
    ensures Scatter(mem, iovs, data)[x] == mem[x]
  {
    ScatterApart(mem, iovs, data, Iov(x, 1));
    assert Scatter(mem, iovs, data)[x..x + 1][0] == mem[x..x + 1][0];
  }

  /** Writing into disjoint segments and reading back gives the data. */
  lemma {:induction false} GatherScatter(mem: Bytes, iovs: seq<Iov>, data: Bytes)
    requires Fits(iovs, |mem|) && |data| == |Addrs(iovs)| && Disjoint(iovs)
    ensures Gather(Scatter(mem, iovs, data), iovs) == data
    decreases |iovs|
  {
    if |iovs| > 0 {
      var v := iovs[0];
      var next := Splice(mem, v.base, data[..v.len]);
      GatherScatter(next, iovs[1..], data[v.len..]);
      ScatterApart(next, iovs[1..], data[v.len..], v);
      SpliceSelf(mem, v.base, data[..v.len]);
    }
  }

  lemma {:induction false} SpliceSelf(m: Bytes, at: nat, d: Bytes)
    requires at + |d| <= |m|
    ensures Splice(m, at, d)[at..at + |d|] == d
  {
  }

  /** Reading the segments and writing the same bytes back changes nothing. */
  lemma {:induction false} ScatterGatherSame(mem: Bytes, iovs: seq<Iov>)
    requires Fits(iovs, |mem|)
    ensures Scatter(mem, iovs, Gather(mem, iovs)) == mem
    decreases |iovs|
  {
    if |iovs| > 0 {
      var v, d := iovs[0], Gather(mem, iovs);
      assert d[..v.len] == mem[v.base..v.base + v.len] && d[v.len..] == Gather(mem, iovs[1..]);
      assert Splice(mem, v.base, d[..v.len]) == mem;
      ScatterGatherSame(mem, iovs[1..]);
    }
  }
}
