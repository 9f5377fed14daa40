/** What one version 7 call does, in plain numbers and from the bytes it drew: which code it
    answers, where in the stream its values lie, what they are, and the word it leaves. */
module Calls {
  import opened Bits
  import opened Bytes
  import opened Stream
  import opened V7
  import Words

  /** Which calls are refused before they reach the stream, and with which code. */
  lemma Refusals(w: Word, c: Call)
    requires c.Valid()
    ensures var res := Perform(w, c);
      && (res.code == 2 <==> c.millis > 253402300799999)
      && (res.code == 4 <==> c.millis <= 253402300799999 && c.Batch? && c.count > 67108864)
      && (res.code == 1 <==> c.millis <= 253402300799999 && (c.Batch? ==> 0 < c.count <= 67108864) && c.draw.Failed?)
      && (res.code in {0, 1, 2, 4, 6})
      && (res.code != 0 ==> res == Result(res.code, w, [], false))
      && (c.millis <= 253402300799999 && c.Batch? && c.count == 0 ==> res == Result(0, w, [], false))
  {
  }

  /** A single call that draws its eleven bytes. The seed is the 19 bits of bytes 1 to 3 above the
      lowest five; byte 4 gives the six bits below the step, and the rest ends the value. */
  lemma SingleLands(w: Word, t: nat, d: seq<byte>)
    requires |d| == 11 && t <= 253402300799999
    ensures var m := w / 0x10_0000 - 1;
      var own := (t + 1) * 0x10_0000 + (d[1] as nat / 32 + 8 * d[2] as nat + 0x800 * d[3] as nat);
      Perform(w, Single(t, Drawn(d))) ==
        if t > 17592186044414 || m > t + 11000 then Result(0, w, [Mint(own, d[4] as nat % 64, d[5..])], false)
        else if m < t then Result(0, own, [Mint(own, d[4] as nat % 64, d[5..])], true)
        else if w % 0x10_0000 < 0xF_FFFF || (m < t + 1000 && m < 17592186044414)
        then Result(0, w + 1, [Mint(w + 1, d[4] as nat % 64, d[5..])], true)
        else Result(6, w, [], false)
  {
    hide Reserve, After;
    SeedOfDraw(d);
    WhereACallLands(w, Request(t, 1, SingleSeed(d)));
  }

  lemma SeedOfDraw(d: seq<byte>)
    requires |d| == 11
    ensures SingleSeed(d) == d[1] as nat / 32 + 8 * d[2] as nat + 0x800 * d[3] as nat
  {
    hide LE;
    assert d[1..4] == [d[1], d[2], d[3]];
    Words.LE3(d[1], d[2], d[3]);
    DivMod(d[1] as nat / 32 + 8 * d[2] as nat + 0x800 * d[3] as nat, d[1] as nat % 32, 32);
  }

  /** A batch that draws its bytes, for the `k` steps its values take at 64 to a step. The seed is
      the last four bytes of the draw, scaled to below 2^19 and to where the `k` steps still fit
      the millisecond. */
  lemma BatchLands(w: Word, t: nat, n: nat, d: seq<byte>, k: nat, seed: nat)
    requires 0 < n <= 67108864 && |d| == 6 * n + 4 && t <= 253402300799999
    requires 64 * (k - 1) < n <= 64 * k
    requires var most := if k > 524289 then 0x10_0000 - k else 524287;
      var last := d[6 * n] as nat + 0x100 * d[6 * n + 1] as nat + 0x1_0000 * d[6 * n + 2] as nat + 0x100_0000 * d[6 * n + 3] as nat;
      seed == last * (most + 1) / 0x1_0000_0000
    ensures var m := w / 0x10_0000 - 1;
      var own := (t + 1) * 0x10_0000 + seed;
      var res := Perform(w, Batch(t, n, Drawn(d)));
      if t > 17592186044414 || m > t + 11000 then res.code == 0 && res.word == w && !res.inStream && Values(res.mints, own, n, d)
      else if m < t then res.code == 0 && res.word == own + k - 1 && res.inStream && Values(res.mints, own, n, d)
      else if w % 0x10_0000 + k < 0x10_0000 || (m < t + 1000 && m < 17592186044414)
      then res.code == 0 && res.word == w + k && res.inStream && Values(res.mints, w + 1, n, d)
      else res == Result(6, w, [], false)
  {
    hide Reserve, After, BatchSeed, LE;
    assert BlockSteps(n) == k;
    BatchSeedFits(n, d);
    BatchSeedOfDraw(n, d, k);
    WhereACallLands(w, Request(t, k, seed));
  }

  /** The values of a batch that starts at position `first`: 64 to a step, in index order, each
      ending in its own six bytes of the draw. */
  ghost predicate Values(ms: seq<Mint>, first: nat, n: nat, d: seq<byte>)
    requires |d| == 6 * n + 4
  {
    |ms| == n && forall i :: 0 <= i < n ==> ms[i] == Mint(first + i / 64, i % 64, d[6 * i..6 * i + 6])
  }

  lemma BatchSeedOfDraw(n: nat, d: seq<byte>, k: nat)
    requires 0 < n <= 67108864 && |d| == 6 * n + 4 && 64 * (k - 1) < n <= 64 * k
    ensures var most := if k > 524289 then 0x10_0000 - k else 524287;
      var last := d[6 * n] as nat + 0x100 * d[6 * n + 1] as nat + 0x1_0000 * d[6 * n + 2] as nat + 0x100_0000 * d[6 * n + 3] as nat;
      BatchSeed(n, d) == last * (most + 1) / 0x1_0000_0000
  {
    hide LE;
    assert BlockSteps(n) == k;
    assert d[6 * n..] == [d[6 * n], d[6 * n + 1], d[6 * n + 2], d[6 * n + 3]];
    FourBytes(d[6 * n], d[6 * n + 1], d[6 * n + 2], d[6 * n + 3]);
  }

  lemma FourBytes(a: byte, b: byte, c: byte, e: byte)
    ensures LE([a, b, c, e]) == a as nat + 0x100 * b as nat + 0x1_0000 * c as nat + 0x100_0000 * e as nat
  {
    assert [a, b, c, e] == [a, b] + [c, e];
    Words.LEAfter2([a, b], [c, e]);
    Words.LE2(a, b);
    Words.LE2(c, e);
  }

  /** A batch of `n` in the stream consumes exactly the steps its values lie on: the word it leaves
      is its last value's position, and it leaves no step out. */
  lemma BatchConsumesItsSteps(w: Word, t: nat, n: nat, d: seq<byte>)
    requires 0 < n <= 67108864 && |d| == 6 * n + 4 && Perform(w, Batch(t, n, Drawn(d))).inStream
    ensures var res := Perform(w, Batch(t, n, Drawn(d)));
      && |res.mints| == n && res.mints[n - 1].position == res.word
      && res.word - res.mints[0].position + 1 == (n + 63) / 64
      && forall i :: 0 <= i < n ==> res.mints[i].position == res.mints[0].position + i / 64
  {
    hide Perform, BatchSeed;
    var k := (n + 63) / 64;
    Refusals(w, Batch(t, n, Drawn(d)));
    BatchSeedOfDraw(n, d, k);
    BatchLands(w, t, n, d, k, BatchSeed(n, d));
    assert (n - 1) / 64 == k - 1;
  }
}
