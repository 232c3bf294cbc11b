/** Exclusive-or over byte columns: the algebra behind parity. */
module XorAlgebra {
  type Bytes = seq<bv8>

  /** The exclusive-or of all bytes of a column. */
  function XorSeq(c: Bytes): bv8 {
    if |c| == 0 then 0 else XorSeq(c[..|c| - 1]) ^ c[|c| - 1]
  }

  lemma {:induction false} XorConcat(a: Bytes, b: Bytes)
    ensures XorSeq(a + b) == XorSeq(a) ^ XorSeq(b)
  {
    if |b| == 0 {
      assert a + b == a;
    } else {
      XorConcat(a, b[..|b| - 1]);
      assert (a + b)[..|a + b| - 1] == a + b[..|b| - 1];
    }
  }

  lemma {:induction false} XorSplit(a: Bytes, x: bv8, b: Bytes)
    ensures XorSeq(a + [x] + b) == XorSeq(a + b) ^ x
  {
    XorConcat(a, b);
    XorConcat(a + [x], b);
    assert (a + [x])[..|a|] == a;
  }

  /** A sequence without its i-th element. */
  function Without<T>(c: seq<T>, i: nat): (r: seq<T>)
    requires i < |c|
    ensures |r| == |c| - 1
  {
    c[..i] + c[i + 1..]
  }

  lemma {:induction false} XorRemove(c: Bytes, i: nat)
    requires i < |c|
    ensures XorSeq(c) == XorSeq(Without(c, i)) ^ c[i]
  {
    var a, x, b := c[..i], c[i], c[i + 1..];
    var y := XorSeq(a + b);
    var z := XorSeq(a + [x] + b);
    assert z == y ^ x by { XorSplit(a, x, b); }
    assert z == XorSeq(c) by { assert c == a + [x] + b; }
  }

  /** Replacing one byte changes the exclusive-or by old ^ new. */
  lemma {:induction false} XorUpdate(c: Bytes, i: nat, v: bv8)
    requires i < |c|
    ensures XorSeq(c[i := v]) == XorSeq(c) ^ c[i] ^ v
  {
    XorSplit(c[..i], c[i], c[i + 1..]);
    XorSplit(c[..i], v, c[i + 1..]);
    assert c == c[..i] + [c[i]] + c[i + 1..];
    assert c[i := v] == c[..i] + [v] + c[i + 1..];
  }

  /** A buffer with part of it overwritten. */
  function Splice(m: Bytes, at: nat, d: Bytes): (r: Bytes)
    requires at + |d| <= |m|
    ensures |r| == |m|
    ensures forall i | 0 <= i < |m| :: r[i] == if at <= i < at + |d| then d[i - at] else m[i]
  {
    m[..at] + d + m[at + |d|..]
  }

  /** `now` is `was` with `s` exclusive-ored into it from `at` on. */
  ghost predicate XoredAt(was: Bytes, now: Bytes, at: nat, s: Bytes) {
    && |now| == |was| && at + |s| <= |was|
    && forall i | 0 <= i < |was| :: now[i] == if at <= i < at + |s| then was[i] ^ s[i - at] else was[i]
  }

  /** Pointwise exclusive-or of two buffers of one length. */
  function XorBytes(a: Bytes, b: Bytes): (r: Bytes)
    requires |a| == |b|
    ensures |r| == |a| && forall i | 0 <= i < |a| :: r[i] == a[i] ^ b[i]
  {
    if |a| == 0 then [] else XorBytes(a[..|a| - 1], b[..|b| - 1]) + [a[|a| - 1] ^ b[|b| - 1]]
  }
}
