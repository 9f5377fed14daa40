/** Bytes, their little-endian and big-endian readings, left-to-right order of byte strings,
    and loads and stores on a linear memory. */
module Bytes {
  import opened Bits

  type byte = x: nat | x < 256

  function ToByte(x: nat): byte {
    x % 256
  }

  /** The little-endian value of a byte string, and the little-endian bytes of a value. */
  function LE(s: seq<byte>): nat {
    if s == [] then 0 else s[0] + 256 * LE(s[1..])
  }

  function LEBytes(x: nat, n: nat): (s: seq<byte>)
    ensures |s| == n
  {
    if n == 0 then [] else [ToByte(x)] + LEBytes(x / 256, n - 1)
  }

  /** The big-endian bytes of a value. */
  function BEBytes(x: nat, n: nat): (s: seq<byte>)
    ensures |s| == n
  {
    if n == 0 then [] else BEBytes(x / 256, n - 1) + [ToByte(x)]
  }

  /** The big-endian value of a byte string. */
  function BE(s: seq<byte>): nat {
    if s == [] then 0 else BE(s[..|s| - 1]) * 256 + s[|s| - 1]
  }

  lemma {:induction false} StoreThenRead(s: seq<byte>)
    ensures LEBytes(LE(s), |s|) == s
  {
    if s != [] {
      StoreThenRead(s[1..]);
      assert LE(s) / 256 == LE(s[1..]);
    }
  }

  lemma {:induction false} ReadThenStore(x: nat, n: nat)
    requires x < Pow2(8 * n)
    ensures LE(LEBytes(x, n)) == x
  {
    if n > 0 {
      Pow2Byte(n);
      ReadThenStore(x / 256, n - 1);
    }
  }

  lemma {:induction false} LEConcat(s: seq<byte>, t: seq<byte>)
    ensures LE(s + t) == LE(s) + Pow2(8 * |s|) * LE(t)
  {
    if s == [] {
      assert s + t == t;
    } else {
      LEConcat(s[1..], t);
      assert (s + t)[1..] == s[1..] + t;
      Pow2Byte(|s|);
      var p := Pow2(8 * (|s| - 1));
      assert (256 * p) * LE(t) == 256 * (p * LE(t));
    }
  }

  lemma {:induction false} LEBound(s: seq<byte>)
    ensures LE(s) < Pow2(8 * |s|)
  {
    if s != [] {
      LEBound(s[1..]);
      Pow2Byte(|s|);
    }
  }

  lemma {:induction false} ReadBE(x: nat, n: nat)
    requires x < Pow2(8 * n)
    ensures BE(BEBytes(x, n)) == x
  {
    if n > 0 {
      Pow2Byte(n);
      ReadBE(x / 256, n - 1);
      assert BEBytes(x, n)[..n - 1] == BEBytes(x / 256, n - 1);
    }
  }

  lemma Pow2Byte(n: nat)
    requires n > 0
    ensures Pow2(8 * n) == 256 * Pow2(8 * (n - 1))
  {
    Powers();
    Add(8, 8 * (n - 1));
  }

  /** `a` comes before `b` read left to right: at the first place they differ, `a` is less. */
  ghost predicate Below(a: seq<byte>, b: seq<byte>)
    requires |a| == |b|
  {
    exists i :: 0 <= i < |a| && a[..i] == b[..i] && a[i] < b[i]
  }

  /** Left-to-right order of concatenations: the heads decide unless they are equal. */
  lemma BelowConcat(a: seq<byte>, b: seq<byte>, x: seq<byte>, y: seq<byte>)
    requires |a| == |b| && |x| == |y|
    ensures Below(a + x, b + y) <==> Below(a, b) || (a == b && Below(x, y))
  {
    if Below(a, b) {
      HeadDecides(a, b, x, y);
    }
    if a == b && Below(x, y) {
      TailDecides(a, x, y);
    }
    if Below(a + x, b + y) {
      FirstDifference(a, b, x, y);
    }
  }

  lemma HeadDecides(a: seq<byte>, b: seq<byte>, x: seq<byte>, y: seq<byte>)
    requires |a| == |b| && |x| == |y| && Below(a, b)
    ensures Below(a + x, b + y)
  {
    var i :| 0 <= i < |a| && a[..i] == b[..i] && a[i] < b[i];
    assert (a + x)[..i] == a[..i] && (b + y)[..i] == b[..i];
    assert (a + x)[i] < (b + y)[i];
  }

  lemma TailDecides(a: seq<byte>, x: seq<byte>, y: seq<byte>)
    requires |x| == |y| && Below(x, y)
    ensures Below(a + x, a + y)
  {
    var i :| 0 <= i < |x| && x[..i] == y[..i] && x[i] < y[i];
    var k := |a| + i;
    assert (a + x)[..k] == a + x[..i] && (a + y)[..k] == a + y[..i];
    assert (a + x)[k] < (a + y)[k];
  }

  lemma FirstDifference(a: seq<byte>, b: seq<byte>, x: seq<byte>, y: seq<byte>)
    requires |a| == |b| && |x| == |y| && Below(a + x, b + y)
    ensures Below(a, b) || (a == b && Below(x, y))
  {
    var i :| 0 <= i < |a + x| && (a + x)[..i] == (b + y)[..i] && (a + x)[i] < (b + y)[i];
    if i < |a| {
      DifferInHead(a, b, x, y, i);
    } else {
      DifferInTail(a, b, x, y, i - |a|);
    }
  }

  lemma DifferInHead(a: seq<byte>, b: seq<byte>, x: seq<byte>, y: seq<byte>, i: nat)
    requires |a| == |b| && |x| == |y| && i < |a|
    requires (a + x)[..i] == (b + y)[..i] && (a + x)[i] < (b + y)[i]
    ensures Below(a, b)
  {
    assert a[..i] == (a + x)[..i] && b[..i] == (b + y)[..i];
    assert a[i] < b[i];
  }

  lemma DifferInTail(a: seq<byte>, b: seq<byte>, x: seq<byte>, y: seq<byte>, k: nat)
    requires |a| == |b| && |x| == |y| && k < |x|
    requires (a + x)[..|a| + k] == (b + y)[..|a| + k] && (a + x)[|a| + k] < (b + y)[|a| + k]
    ensures a == b && Below(x, y)
  {
    assert (a + x)[..|a| + k] == a + x[..k] && (b + y)[..|a| + k] == b + y[..k];
    SameParts(a, x[..k], b, y[..k]);
    assert x[k] < y[k];
  }

  lemma SameParts(a: seq<byte>, x: seq<byte>, b: seq<byte>, y: seq<byte>)
    requires |a| == |b| && |x| == |y| && a + x == b + y
    ensures a == b && x == y
  {
    assert a == (a + x)[..|a|] && x == (a + x)[|a|..] && b == (b + y)[..|a|] && y == (b + y)[|a|..];
  }

  lemma BelowSingle(p: byte, q: byte)
    ensures Below([p], [q]) <==> p < q
  {
    if p < q {
      assert [p][..0] == [q][..0];
      assert [p][0] < [q][0];
    }
  }

  lemma BelowIrreflexive(a: seq<byte>)
    ensures !Below(a, a)
  {
  }

  /** Big-endian fields order byte strings as their values order. */
  lemma {:induction false} BelowIsLess(x: nat, y: nat, n: nat)
    requires x < Pow2(8 * n) && y < Pow2(8 * n)
    ensures Below(BEBytes(x, n), BEBytes(y, n)) <==> x < y
    ensures BEBytes(x, n) == BEBytes(y, n) <==> x == y
  {
    if n > 0 {
      Pow2Byte(n);
      BelowIsLess(x / 256, y / 256, n - 1);
      BelowConcat(BEBytes(x / 256, n - 1), BEBytes(y / 256, n - 1), [ToByte(x)], [ToByte(y)]);
      BelowSingle(ToByte(x), ToByte(y));
      ReadBE(x, n);
      ReadBE(y, n);
    }
  }

  // ---- Linear memory ------------------------------------------------------------------------

  // ---- Slices -----------------------------------------------------------------------------------

  lemma SubSlice(m: seq<byte>, a: nat, b: nat, i: nat, j: nat)
    requires a <= b <= |m| && i <= j <= b - a
    ensures m[a + i..a + j] == m[a..b][i..j]
  {
    var s, t := m[a + i..a + j], m[a..b][i..j];
    assert forall k :: 0 <= k < |s| ==> s[k] == t[k];
  }

  lemma SameSlice(m: seq<byte>, m': seq<byte>, lo: nat, hi: nat)
    requires lo <= hi <= |m| == |m'| && forall i :: lo <= i < hi ==> m'[i] == m[i]
    ensures m'[lo..hi] == m[lo..hi]
  {
    var s, t := m[lo..hi], m'[lo..hi];
    assert forall k :: 0 <= k < |s| ==> s[k] == t[k];
  }

  lemma Adjoin(m: seq<byte>, a: nat, b: nat, c: nat)
    requires a <= b <= c <= |m|
    ensures m[a..c] == m[a..b] + m[b..c]
  {
  }

  function Load(mem: array<byte>, a: nat, n: nat): nat
    requires a + n <= mem.Length
    reads mem
  {
    LE(mem[a..a + n])
  }

  method Store(mem: array<byte>, a: nat, n: nat, x: nat)
    requires a + n <= mem.Length
    modifies mem
    ensures mem[a..a + n] == LEBytes(x, n)
    ensures forall i :: 0 <= i < mem.Length && !(a <= i < a + n) ==> mem[i] == old(mem[i])
  {
    CopyIn(mem, a, LEBytes(x, n));
  }

  /** A load of `n` bytes followed by a store of them. */
  method Move(src: array<byte>, a: nat, dst: array<byte>, b: nat, n: nat)
    requires a + n <= src.Length && b + n <= dst.Length
    modifies dst
    ensures forall i :: b <= i < b + n ==> dst[i] == old(src[a + (i - b)])
    ensures forall i :: 0 <= i < dst.Length && !(b <= i < b + n) ==> dst[i] == old(dst[i])
  {
    ghost var s := src[a..a + n];
    StoreThenRead(s);
    Store(dst, b, n, Load(src, a, n));
    assert forall i :: b <= i < b + n ==> dst[i] == dst[b..b + n][i - b];
  }

  method CopyIn(mem: array<byte>, a: nat, p: seq<byte>)
    requires a + |p| <= mem.Length
    modifies mem
    ensures mem[a..a + |p|] == p
    ensures forall i :: 0 <= i < mem.Length && !(a <= i < a + |p|) ==> mem[i] == old(mem[i])
  {
    for i := 0 to |p|
      invariant mem[a..a + i] == p[..i]
      invariant forall j :: 0 <= j < mem.Length && !(a <= j < a + i) ==> mem[j] == old(mem[j])
    {
      mem[a + i] := p[i];
    }
  }

  method CopyBytes(src: array<byte>, a: nat, dst: array<byte>, b: nat, n: nat)
    requires a + n <= src.Length && b + n <= dst.Length && src != dst
    modifies dst
    ensures forall i :: b <= i < b + n ==> dst[i] == src[a + (i - b)]
    ensures forall i :: 0 <= i < dst.Length && !(b <= i < b + n) ==> dst[i] == old(dst[i])
  {
    for j := 0 to n
      invariant forall i :: b <= i < b + j ==> dst[i] == src[a + (i - b)]
      invariant forall i :: 0 <= i < dst.Length && !(b <= i < b + j) ==> dst[i] == old(dst[i])
    {
      dst[b + j] := src[a + j];
    }
  }

  method Clear(dst: array<byte>, from: nat, to: nat)
    requires from <= to <= dst.Length
    modifies dst
    ensures forall i :: from <= i < to ==> dst[i] == 0
    ensures forall i :: 0 <= i < dst.Length && !(from <= i < to) ==> dst[i] == old(dst[i])
  {
    for j := from to to
      invariant forall i :: from <= i < j ==> dst[i] == 0
      invariant forall i :: 0 <= i < dst.Length && !(from <= i < j) ==> dst[i] == old(dst[i])
    {
      dst[j] := 0;
    }
  }
}
