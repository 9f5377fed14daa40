/** The AES-256-CTR random source: a keystream buffer with a byte budget and a lifetime for every
    key. The cipher is an abstract keystream; reading a key may fail, and the clock is arbitrary.
    The keystreams of the keys, cut at the budget and laid end to end, are numbered by one
    index: byte `o` of key `k` has index `k * BUDGET + o`. */
module AesSource {
  import opened Bits
  import opened Bytes

  const BUDGET: nat := 0x10_0000
  const LIFETIME: int := 1_000_000_000
  const BUF_SIZE: nat := 512
  const EIO: nat := 29

  /** A counter-mode stream: its key, by the number of rekeys completed before it, and how far
      it has generated. */
  datatype Stream = NoStream | Ctr(key: nat, pos: nat)

  /** The byte with a given index, of keystreams `ks`: byte `o` of key `k` is `ks(k, o)`. */
  function Keystream(ks: (nat, nat) -> byte, index: nat): byte {
    ks(index / BUDGET, index % BUDGET)
  }

  /** A key's first 2^20 bytes, then the next key's. */
  lemma KeyByKey(ks: (nat, nat) -> byte, key: nat, offset: nat)
    requires offset < 0x10_0000
    ensures Keystream(ks, key * 0x10_0000 + offset) == ks(key, offset)
  {
    DivMod(key, offset, 0x10_0000);
  }

  function XorByte(a: byte, b: byte): byte {
    XorBelow(a, b, 8);
    assert Pow2(8) == 256 by { Powers(); }
    Xor(a, b)
  }

  // ---- Draws, seen from outside ---------------------------------------------------------------------

  /** The state of a source: whether it holds a key, when each key it has had was read, the
      index of the next byte it would serve, and of the next byte it would generate. The bytes
      between the two are in its buffer. */
  datatype View = View(keyless: bool, readAt: seq<int>, next: nat, gen: nat) {
    function Keys(): nat {
      |readAt|
    }

    function KeyedAt(): int
      requires readAt != []
    {
      readAt[|readAt| - 1]
    }

    predicate Sound() {
      && next <= gen <= next + BUF_SIZE
      && (next < gen && Keys() > 0 ==> (Keys() - 1) * BUDGET < gen)
      && if keyless then next == gen == Keys() * BUDGET else Keys() > 0 && (Keys() - 1) * BUDGET <= gen <= Keys() * BUDGET
    }

    predicate Expired(now: int)
      requires Sound()
    {
      keyless || now - KeyedAt() >= LIFETIME
    }

    /** Where a draw starts: at the next byte, or at the start of a fresh key. */
    function Start(now: int): nat
      requires Sound()
    {
      if Expired(now) then Keys() * BUDGET else next
    }

    /** How many bytes of the buffer a draw may use. */
    function Buffered(now: int): nat
      requires Sound()
    {
      if Expired(now) then 0 else gen - next
    }

    /** Where a draw that succeeds leaves the next byte to serve, and the next to generate. */
    function NextAfter(d: Draw): nat
      requires Sound()
    {
      Start(d.now) + d.size
    }

    function GenAfter(d: Draw): nat
      requires Sound()
    {
      var buffered := Buffered(d.now);
      Start(d.now) + buffered + Wanted(if d.size < buffered then 0 else d.size - buffered)
    }
  }

  /** What is generated for the bytes the buffer could not serve. */
  function Wanted(rest: nat): nat {
    if rest == 0 then 0 else if rest < BUF_SIZE then BUF_SIZE else rest
  }

  datatype Draw = Draw(now: int, size: nat, code: nat)

  /** How one draw takes the source from `v` to `v'`. A draw that succeeds serves the next bytes
      and reads exactly the keys it needs; one that fails leaves the source without a key. */
  ghost predicate Drew(v: View, d: Draw, v': View) {
    && v.Sound() && v'.Sound()
    && v.readAt <= v'.readAt
    && (d.code == 0 || d.code == EIO)
    && (d.size == 0 ==> d.code == 0 && v' == v)
    && (d.size > 0 && d.code == 0 ==> Served(v, d, v'))
    && (d.code != 0 ==> v'.keyless && v.Start(d.now) <= v'.next)
  }

  ghost predicate Served(v: View, d: Draw, v': View)
    requires v.Sound() && v'.Sound()
  {
    var keys := if v.Expired(d.now) then v.Keys() + 1 else v.Keys();
    && !v'.keyless && v'.next == v.NextAfter(d) && v'.gen == v.GenAfter(d)
    && keys <= v'.Keys() && (keys < v'.Keys() ==> (v'.Keys() - 1) * BUDGET < v'.gen)
  }

  /** A draw put together from its steps: an empty one; one whose rekey failed; one served under the
      key held, or under a fresh one. */
  lemma NothingDrawn(v: View, now: int)
    requires v.Sound()
    ensures Drew(v, Draw(now, 0, 0), v)
  {
  }

  lemma Undrawn(v: View, now: int, size: nat, v': View)
    requires v.Sound() && v'.Sound() && v.Expired(now) && size > 0
    requires v'.keyless && v'.readAt == v.readAt
    ensures Drew(v, Draw(now, size, EIO), v')
  {
  }

  lemma DrawnUnder(v: View, now: int, u: View, size: nat, code: nat, v': View)
    requires v.Sound() && u.Sound() && v'.Sound() && size > 0 && (code == 0 || code == EIO)
    requires if v.Expired(now) then v.readAt <= u.readAt && u.Keys() == v.Keys() + 1 && u.next == u.gen == v.Keys() * BUDGET else u == v
    requires u.readAt <= v'.readAt
    requires code == 0 ==>
      && !v'.keyless && v'.next == u.next + size
      && v'.gen == u.gen + Wanted(if size < u.gen - u.next then 0 else size - (u.gen - u.next))
      && (v'.Keys() == u.Keys() || (v'.Keys() - 1) * BUDGET < v'.gen)
    requires code != 0 ==> v'.keyless && u.next <= v'.next
    ensures Drew(v, Draw(now, size, code), v')
  {
  }

  // ---- The source -----------------------------------------------------------------------------------

  class AesSource {
    const ks: (nat, nat) -> byte   // the keystream: byte `o` of key `k`
    const keyRead: nat -> bool       // whether attempt `i` to read a key gets every byte
    const clock: nat -> int        // the clock after attempt `i`
    var attempts: nat
    var keys: nat
    var stream: Stream
    var keyedAt: int
    var generated: nat
    var buf: array<byte>
    var off: nat
    ghost var readAt: seq<int>     // when each key was read

    /** The byte with a given index. */
    function At(index: nat): byte {
      Keystream(ks, index)
    }

    ghost predicate Keyed()
      reads this
    {
      match stream
      case NoStream => generated == 0 && keys == |readAt|
      case Ctr(key, pos) => key + 1 == keys == |readAt| && pos == generated <= BUDGET && keyedAt == readAt[key]
    }

    /** The index of the next byte to be generated. */
    function Generator(): nat
      reads this
    {
      match stream
      case NoStream => keys * BUDGET
      case Ctr(key, pos) => key * BUDGET + pos
    }

    /** No key generates more than its budget, and the buffer holds the bytes generated last. */
    ghost predicate Valid()
      reads this, buf
    {
      && Keyed() && buf.Length == BUF_SIZE && off <= BUF_SIZE
      && (stream.NoStream? ==> off == BUF_SIZE)
      && BUF_SIZE - off <= Generator() && (stream.Ctr? && stream.pos == 0 ==> off == BUF_SIZE)
      && forall i :: off <= i < BUF_SIZE ==> buf[i] == At(Generator() - (BUF_SIZE - i))
    }

    ghost function Seen(): (v: View)
      requires Valid()
      reads this, buf
      ensures v.Sound()
    {
      View(stream.NoStream?, readAt, Generator() - (BUF_SIZE - off), Generator())
    }

    constructor (ks: (nat, nat) -> byte, keyRead: nat -> bool, clock: nat -> int)
      ensures Valid() && Seen() == View(true, [], 0, 0) && attempts == 0 && fresh(buf)
      ensures this.ks == ks && this.keyRead == keyRead && this.clock == clock
    {
      this.ks, this.keyRead, this.clock := ks, keyRead, clock;
      attempts, keys, stream, keyedAt, generated := 0, 0, NoStream, 0, 0;
      buf := new byte[BUF_SIZE](i => 0);
      off := BUF_SIZE;
      readAt := [];
    }

    /** From `a` attempts and keys read at `r` to `a'` and `r'`: one attempt for every key read,
        plus the one that failed if the last one did. */
    ghost predicate KeysRead(a: nat, r: seq<int>, a': nat, r': seq<int>, ok: bool) {
      && r <= r'
      && a' == a + (|r'| - |r|) + (if ok then 0 else 1)
      && (!ok ==> !keyRead(a' - 1))
      && forall k :: |r| <= k < |r'| ==> ReadBy(a + k - |r|, r'[k])
    }

    /** Attempt `i` read a key, at time `at`. */
    predicate ReadBy(i: nat, at: int) {
      keyRead(i) && at == clock(i)
    }

    lemma NoKeysRead(a: nat, r: seq<int>)
      ensures KeysRead(a, r, a, r, true)
    {
    }

    lemma KeysReadTwice(a: nat, r: seq<int>, a1: nat, r1: seq<int>, a2: nat, r2: seq<int>, ok: bool)
      requires KeysRead(a, r, a1, r1, true) && KeysRead(a1, r1, a2, r2, ok)
      ensures KeysRead(a, r, a2, r2, ok)
    {
      forall k | |r| <= k < |r2|
        ensures ReadBy(a + k - |r|, r2[k])
      {
        if k < |r1| {
          assert ReadBy(a + k - |r|, r1[k]);
        } else {
          assert a1 + k - |r1| == a + k - |r|;
          assert ReadBy(a1 + k - |r1|, r2[k]);
        }
      }
    }

    /** Discards the buffer and the key, and reads a new one: on success the counter starts at
        zero, on failure the source is left without a key. */
    method Rekey() returns (ok: bool)
      modifies this`attempts, this`keys, this`stream, this`keyedAt, this`generated, this`off, this`readAt
      requires keys == |readAt|
      ensures Keyed() && off == BUF_SIZE && old(readAt) <= readAt
      ensures KeysRead(old(attempts), old(readAt), attempts, readAt, ok)
      ensures ok ==> stream == Ctr(old(keys), 0) && keys == old(keys) + 1
      ensures !ok ==> stream.NoStream? && keys == old(keys)
    {
      stream := NoStream;
      off := BUF_SIZE;
      generated := 0;
      ok := keyRead(attempts);
      attempts := attempts + 1;
      if ok {
        stream := Ctr(keys, 0);
        keys := keys + 1;
        keyedAt := clock(attempts - 1);
        readAt := readAt + [keyedAt];
      }
    }

    /** Combines the next `n` keystream bytes into `dst` from `lo` on. */
    method XorKeyStream(dst: array<byte>, lo: nat, n: nat)
      requires stream.Ctr? && lo + n <= dst.Length
      modifies dst, this`stream
      ensures stream == Ctr(old(stream).key, old(stream).pos + n)
      ensures forall i :: lo <= i < lo + n ==> dst[i] == XorByte(old(dst[i]), ks(old(stream).key, old(stream).pos + (i - lo)))
      ensures forall i :: 0 <= i < dst.Length && !(lo <= i < lo + n) ==> dst[i] == old(dst[i])
    {
      hide XorByte;
      var k, p := stream.key, stream.pos;
      for j := 0 to n
        invariant forall i :: lo <= i < lo + j ==> dst[i] == XorByte(old(dst[i]), ks(k, p + (i - lo)))
        invariant forall i :: 0 <= i < dst.Length && !(lo <= i < lo + j) ==> dst[i] == old(dst[i])
      {
        dst[lo + j] := XorByte(dst[lo + j], ks(k, p + j));
      }
      stream := Ctr(k, p + n);
    }

    /** Fills zeroed memory with the next bytes, cutting at the budget: whatever would cross it is
        finished under the next key. */
    method Generate(dst: array<byte>, from: nat) returns (code: nat)
      requires Keyed() && stream.Ctr? && from <= dst.Length
      requires forall i :: from <= i < dst.Length ==> dst[i] == 0
      modifies dst, this`attempts, this`keys, this`stream, this`keyedAt, this`generated, this`off, this`readAt
      ensures Keyed() && (code == 0 || code == EIO) && old(readAt) <= readAt
      ensures KeysRead(old(attempts), old(readAt), attempts, readAt, code == 0)
      ensures code == 0 ==> stream.Ctr? && Generator() == old(Generator()) + (dst.Length - from)
      ensures code == 0 ==> keys == old(keys) || (keys - 1) * BUDGET < Generator()
      ensures code == 0 ==> forall i :: from <= i < dst.Length ==> dst[i] == At(old(Generator()) + (i - from))
      ensures code != 0 ==> stream.NoStream? && off == BUF_SIZE && old(Generator()) <= Generator()
      ensures off == if keys == old(keys) && code == 0 then old(off) else BUF_SIZE
      ensures forall i :: 0 <= i < from ==> dst[i] == old(dst[i])
    {
      hide XorByte, KeysRead, At;
      NoKeysRead(attempts, readAt);
      var lo := from;
      while lo < dst.Length
        invariant from <= lo <= dst.Length
        invariant Keyed() && stream.Ctr? && old(readAt) <= readAt && KeysRead(old(attempts), old(readAt), attempts, readAt, true)
        invariant keys == old(keys) || (keys - 1) * BUDGET < Generator()
        invariant Generator() == old(Generator()) + (lo - from)
        invariant forall i :: from <= i < lo ==> dst[i] == At(old(Generator()) + (i - from))
        invariant forall i :: lo <= i < dst.Length ==> dst[i] == 0
        invariant forall i :: 0 <= i < from ==> dst[i] == old(dst[i])
        invariant off == if keys == old(keys) then old(off) else BUF_SIZE
      {
        if generated >= BUDGET {
          ghost var a, r := attempts, readAt;
          var ok := Rekey();
          KeysReadTwice(old(attempts), old(readAt), a, r, attempts, readAt, ok);
          if !ok {
            return EIO;
          }
        }
        var n := if dst.Length - lo < BUDGET - generated then dst.Length - lo else BUDGET - generated;
        ghost var g, k, p := Generator(), stream.key, stream.pos;
        XorKeyStream(dst, lo, n);
        KeystreamIndices(k, p, n);
        ZeroIsNeutral();
        generated := generated + n;
        lo := lo + n;
      }
      code := 0;
    }

    lemma KeystreamIndices(k: nat, p: nat, n: nat)
      requires p + n <= BUDGET
      ensures forall c :: k * BUDGET + p <= c < k * BUDGET + p + n ==> At(c) == ks(k, c - k * BUDGET)
    {
      forall c | k * BUDGET + p <= c < k * BUDGET + p + n
        ensures At(c) == ks(k, c - k * BUDGET)
      {
        DivMod(k, c - k * BUDGET, BUDGET);
      }
    }

    /** One draw. The lifetime is checked first, then the buffer's remainder is served, then a
        long rest is generated where it is wanted and a short one from a refilled buffer. */
    method Fill(dst: array<byte>, now: int) returns (code: nat)
      requires Valid() && dst != buf
      modifies this`attempts, this`keys, this`stream, this`keyedAt, this`generated, this`off, this`readAt, buf, dst
      ensures Valid()
      ensures Drew(old(Seen()), Draw(now, dst.Length, code), Seen())
      ensures code == 0 ==> forall i :: 0 <= i < dst.Length ==> dst[i] == At(old(Seen()).Start(now) + i)
      ensures KeysRead(old(attempts), old(readAt), attempts, readAt, code == 0)
    {
      hide At, KeysRead, Drew;
      ghost var v := Seen();
      NoKeysRead(attempts, readAt);
      code := 0;
      if dst.Length == 0 {
        NothingDrawn(v, now);
        return;
      }
      if stream.NoStream? || now - keyedAt >= LIFETIME {
        var ok := Rekey();
        if !ok {
          Undrawn(v, now, dst.Length, Seen());
          return EIO;
        }
      }
      ghost var a, r, u := attempts, readAt, Seen();
      code := Serve(dst);
      DrawnUnder(v, now, u, dst.Length, code, Seen());
      KeysReadTwice(old(attempts), old(readAt), a, r, attempts, readAt, code == 0);
    }

    /** Serves a draw under the key held: the buffer's remainder first. */
    method Serve(dst: array<byte>) returns (code: nat)
      requires Valid() && dst != buf && stream.Ctr? && dst.Length > 0
      modifies this`attempts, this`keys, this`stream, this`keyedAt, this`generated, this`off, this`readAt, buf, dst
      ensures Valid() && (code == 0 || code == EIO) && old(readAt) <= readAt
      ensures KeysRead(old(attempts), old(readAt), attempts, readAt, code == 0)
      ensures code == 0 ==> stream.Ctr? && Seen().next == old(Seen().next) + dst.Length
      ensures var left := old(BUF_SIZE - off);
        code == 0 ==> Seen().gen == old(Seen().gen) + Wanted(if dst.Length < left then 0 else dst.Length - left)
      ensures code == 0 ==> keys == old(keys) || (keys - 1) * BUDGET < Generator()
      ensures code == 0 ==> forall i :: 0 <= i < dst.Length ==> dst[i] == At(old(Seen().next) + i)
      ensures code != 0 ==> stream.NoStream? && old(Seen().next) <= Generator()
    {
      hide At, KeysRead;
      NoKeysRead(attempts, readAt);
      code := 0;
      var n := if dst.Length < BUF_SIZE - off then dst.Length else BUF_SIZE - off;
      CopyBytes(buf, off, dst, 0, n);
      off := off + n;
      if dst.Length - n >= BUF_SIZE {
        Clear(dst, n, dst.Length);
        code := Generate(dst, n);
      } else if dst.Length - n > 0 {
        code := Refill(dst, n);
      }
    }

    /** Refills the empty buffer and serves the rest of `dst` from its start. */
    method Refill(dst: array<byte>, n: nat) returns (code: nat)
      requires Valid() && dst != buf && stream.Ctr? && off == BUF_SIZE && n < dst.Length < n + BUF_SIZE
      modifies this`attempts, this`keys, this`stream, this`keyedAt, this`generated, this`off, this`readAt, buf, dst
      ensures Valid() && (code == 0 || code == EIO) && old(readAt) <= readAt
      ensures KeysRead(old(attempts), old(readAt), attempts, readAt, code == 0)
      ensures code == 0 ==> stream.Ctr? && Seen().next == old(Generator()) + (dst.Length - n)
      ensures code == 0 ==> Generator() == old(Generator()) + BUF_SIZE
      ensures code == 0 ==> keys == old(keys) || (keys - 1) * BUDGET < Generator()
      ensures code == 0 ==> forall i :: n <= i < dst.Length ==> dst[i] == At(old(Generator()) + (i - n))
      ensures code != 0 ==> stream.NoStream? && old(Generator()) <= Generator()
      ensures forall i :: 0 <= i < n ==> dst[i] == old(dst[i])
    {
      hide At, KeysRead;
      Clear(buf, 0, BUF_SIZE);
      code := Generate(buf, 0);
      if code != 0 {
        off := BUF_SIZE;
        return;
      }
      off := dst.Length - n;
      CopyBytes(buf, 0, dst, n, off);
    }
  }

  lemma ZeroIsNeutral()
    ensures forall b: byte :: XorByte(0, b) == b
  {
  }

  /** A draw that succeeds, in plain numbers. Without a key, or a second or more after the newest
      was read, it starts at the first byte of a key read then; else at the next byte of the
      stream. It serves the buffer first, and generates what the buffer lacks, 512 bytes at
      least, reading a key for every 2^20 bytes begun. */
  lemma DrawInPlainNumbers(v: View, d: Draw, v': View)
    requires Drew(v, d, v') && d.code == 0 && d.size > 0
    ensures var stale := v.keyless || d.now - v.KeyedAt() >= 1_000_000_000;
      var start := if stale then v.Keys() * 0x10_0000 else v.next;
      var buffered := if stale then 0 else v.gen - v.next;
      var keys := if stale then v.Keys() + 1 else v.Keys();
      && v.Start(d.now) == start && v'.next == start + d.size
      && v'.gen == start + buffered + (if d.size <= buffered then 0 else if d.size - buffered < 512 then 512 else d.size - buffered)
      && keys <= v'.Keys() && v'.gen <= v'.Keys() * 0x10_0000 && (keys < v'.Keys() ==> (v'.Keys() - 1) * 0x10_0000 < v'.gen)
  {
  }

  /** And one that does not: an empty draw does nothing, and a draw fails with code 29 alone,
      leaving no key and nothing of the keys there were. */
  lemma OtherDraws(v: View, d: Draw, v': View)
    requires Drew(v, d, v')
    ensures d.size == 0 ==> d.code == 0 && v' == v
    ensures d.code == 0 || d.code == 29
    ensures d.code == 29 ==> v'.keyless && v'.next == v'.gen == v'.Keys() * 0x10_0000 && v.readAt <= v'.readAt
  {
  }

  // ---- Runs of draws --------------------------------------------------------------------------------

  /** Draws `ds` take the source through `vs`. */
  ghost predicate Trace(vs: seq<View>, ds: seq<Draw>) {
    |vs| == |ds| + 1 && forall i :: 0 <= i < |ds| ==> Drew(vs[i], ds[i], vs[i + 1])
  }

  /** Over any draws, clock readings and failed rekeys, what a successful draw serves lies wholly
      before everything served after it, so no byte of any key is served twice. */
  lemma ServedIncreases(vs: seq<View>, ds: seq<Draw>, i: nat, j: nat)
    requires Trace(vs, ds) && i < j < |ds|
    requires ds[i].code == 0 && ds[i].size > 0
    ensures vs[i].Sound() && vs[j].Sound()
    ensures vs[i].Start(ds[i].now) + ds[i].size <= vs[j].Start(ds[j].now)
  {
    assert Drew(vs[i], ds[i], vs[i + 1]) && Drew(vs[j], ds[j], vs[j + 1]);
    NextIncreases(vs, ds, i + 1, j);
    StartIsAhead(vs[j], ds[j].now);
  }

  lemma StartIsAhead(v: View, now: int)
    requires v.Sound()
    ensures v.next <= v.Start(now)
  {
  }

  lemma {:induction false} NextIncreases(vs: seq<View>, ds: seq<Draw>, i: nat, j: nat)
    requires Trace(vs, ds) && i <= j < |vs|
    ensures vs[i].next <= vs[j].next && vs[i].readAt <= vs[j].readAt
    decreases j
  {
    if i < j {
      NextIncreases(vs, ds, i, j - 1);
      assert Drew(vs[j - 1], ds[j - 1], vs[j]);
      StartIsAhead(vs[j - 1], ds[j - 1].now);
    }
  }

  function Total(ds: seq<Draw>): nat {
    if ds == [] then 0 else Total(ds[..|ds| - 1]) + ds[|ds| - 1].size
  }

  /** Every draw of the trace succeeded, and no key expired under it. */
  ghost predicate Undisturbed(vs: seq<View>, ds: seq<Draw>) {
    && Trace(vs, ds)
    && forall i :: 0 <= i < |ds| ==> ds[i].code == 0 && vs[i].Sound() && (vs[i].keyless || ds[i].now - vs[i].KeyedAt() < 1_000_000_000)
  }

  /** With no expiry and no failed read, the draws of a source, however the wanted bytes are
      sliced into them, are consecutive stretches of one keystream: nothing skipped, nothing
      repeated. */
  lemma {:induction false} DrawsAreContiguous(vs: seq<View>, ds: seq<Draw>, i: nat)
    requires Undisturbed(vs, ds) && i <= |ds|
    ensures vs[i].next == vs[0].next + Total(ds[..i])
    ensures i < |ds| ==> vs[i].Sound() && vs[i].Start(ds[i].now) == vs[0].next + Total(ds[..i])
  {
    hide Drew, Served, View.Sound;
    if i > 0 {
      DrawsAreContiguous(vs, ds, i - 1);
      assert ds[..i][..i - 1] == ds[..i - 1];
      DrewOn(vs[i - 1], ds[i - 1], vs[i]);
    }
    if i < |ds| {
      assert Drew(vs[i], ds[i], vs[i + 1]);
      DrewOn(vs[i], ds[i], vs[i + 1]);
    }
  }

  /** An undisturbed draw starts where the last one ended. */
  lemma DrewOn(v: View, d: Draw, v': View)
    requires Drew(v, d, v') && d.code == 0 && v.Sound()
    requires v.Expired(d.now) ==> v.keyless
    ensures v.Start(d.now) == v.next && v'.next == v.next + d.size
  {
  }

  function Concat(outs: seq<seq<byte>>): seq<byte> {
    if outs == [] then [] else Concat(outs[..|outs| - 1]) + outs[|outs| - 1]
  }

  /** What each draw put in its destination. */
  ghost predicate Outputs(ks: (nat, nat) -> byte, vs: seq<View>, ds: seq<Draw>, outs: seq<seq<byte>>)
    requires Undisturbed(vs, ds)
  {
    && |outs| == |ds|
    && forall i :: 0 <= i < |ds| ==> Output(ks, vs[i].Start(ds[i].now), ds[i].size, outs[i])
  }

  ghost predicate Output(ks: (nat, nat) -> byte, start: nat, size: nat, out: seq<byte>) {
    |out| == size && forall j :: 0 <= j < size ==> out[j] == Keystream(ks, start + j)
  }

  /** What all the draws of a new source delivered, joined, is a prefix of its keystreams laid end
      to end. */
  lemma {:induction false} DrawsSpellTheKeystream(ks: (nat, nat) -> byte, vs: seq<View>, ds: seq<Draw>, outs: seq<seq<byte>>, i: nat)
    requires Undisturbed(vs, ds) && Outputs(ks, vs, ds, outs) && i <= |ds|
    ensures Output(ks, vs[0].next, Total(ds[..i]), Concat(outs[..i]))
  {
    hide Drew, Served, View.Sound, View.Start, View.Expired, View.NextAfter, View.GenAfter, View.KeyedAt, Keystream;
    if i > 0 {
      DrawsSpellTheKeystream(ks, vs, ds, outs, i - 1);
      DrawsAreContiguous(vs, ds, i - 1);
      assert ds[..i][..i - 1] == ds[..i - 1] && outs[..i][..i - 1] == outs[..i - 1];
      var done := Total(ds[..i - 1]);
      assert Output(ks, vs[0].next + done, ds[i - 1].size, outs[i - 1]);
      var all := Concat(outs[..i]);
      assert all == Concat(outs[..i - 1]) + outs[i - 1];
      forall j | 0 <= j < |all|
        ensures all[j] == Keystream(ks, vs[0].next + j)
      {
        if j >= done {
          assert outs[i - 1][j - done] == Keystream(ks, vs[0].next + done + (j - done));
        }
      }
    }
  }

  /** After a failed draw nothing of any key read before it is served again: a later draw that
      succeeds starts at a key read since. */
  lemma FailureServesNothing(vs: seq<View>, ds: seq<Draw>, i: nat, j: nat)
    requires Trace(vs, ds) && i < j < |ds|
    requires ds[i].code != 0
    ensures vs[i + 1].Sound() && vs[j].Sound()
    ensures vs[i].Keys() <= vs[i + 1].Keys() && vs[j].Start(ds[j].now) >= vs[i + 1].Keys() * BUDGET
  {
    assert Drew(vs[i], ds[i], vs[i + 1]) && Drew(vs[j], ds[j], vs[j + 1]);
    NextIncreases(vs, ds, i + 1, j);
    StartIsAhead(vs[j], ds[j].now);
  }

  // ---- Lifetimes --------------------------------------------------------------------------------------

  /** Over any draws: every byte a draw serves is of a key it read itself, or is served less than a
      second after the newest key was read, whether it was in the buffer or is generated now. */
  lemma EveryByteServesInTime(vs: seq<View>, ds: seq<Draw>, i: nat, c: nat)
    requires Trace(vs, ds) && i < |ds| && ds[i].code == 0
    requires vs[i].Sound() && vs[i].Start(ds[i].now) <= c < vs[i].Start(ds[i].now) + ds[i].size
    ensures c / 0x10_0000 >= vs[i].Keys() || (!vs[i].keyless && ds[i].now - vs[i].KeyedAt() < 1_000_000_000)
  {
    assert Drew(vs[i], ds[i], vs[i + 1]);
    DrawInPlainNumbers(vs[i], ds[i], vs[i + 1]);
    if c / 0x10_0000 < vs[i].Keys() {
      DivisionLaw(c, 0x10_0000);
    }
  }

  /** What a draw that fails, or that finds the key expired, leaves unserved of the buffer is
      never served. */
  lemma DiscardsTheBuffer(v: View, d: Draw, v': View)
    requires Drew(v, d, v')
    ensures v.gen <= v'.gen
    ensures d.size > 0 && (d.code != 0 || v.Expired(d.now)) ==> v.gen <= v'.next && (d.code == 0 ==> v.gen <= v.Start(d.now))
  {
  }

  lemma {:induction false} GenIncreases(vs: seq<View>, ds: seq<Draw>, i: nat, j: nat)
    requires Trace(vs, ds) && i <= j < |vs|
    ensures vs[i].gen <= vs[j].gen
    decreases j
  {
    if i < j {
      GenIncreases(vs, ds, i, j - 1);
      assert Drew(vs[j - 1], ds[j - 1], vs[j]);
      DiscardsTheBuffer(vs[j - 1], ds[j - 1], vs[j]);
    }
  }

  /** Bytes generated by one draw and served by a later one, whatever came between: the later
      draw is within a second of the newest key's reading, and no draw since, itself included,
      failed or found the key expired. */
  lemma BufferedBytesServeInTime(vs: seq<View>, ds: seq<Draw>, i: nat, j: nat, c: nat)
    requires Trace(vs, ds) && i < j < |ds| && ds[j].code == 0 && c < vs[i + 1].gen
    requires vs[j].Sound() && vs[j].Start(ds[j].now) <= c < vs[j].Start(ds[j].now) + ds[j].size
    ensures !vs[j].keyless && ds[j].now - vs[j].KeyedAt() < LIFETIME
    ensures forall k :: i < k <= j && ds[k].size > 0 ==> vs[k].Sound() && ds[k].code == 0 && !vs[k].Expired(ds[k].now)
  {
    forall k | i < k <= j && ds[k].size > 0
      ensures vs[k].Sound() && ds[k].code == 0 && !vs[k].Expired(ds[k].now)
    {
      StillBuffered(vs, ds, i, j, c, k);
    }
  }

  lemma StillBuffered(vs: seq<View>, ds: seq<Draw>, i: nat, j: nat, c: nat, k: nat)
    requires Trace(vs, ds) && i < k <= j < |ds| && ds[j].code == 0 && ds[k].size > 0 && c < vs[i + 1].gen
    requires vs[j].Sound() && vs[j].Start(ds[j].now) <= c
    ensures vs[k].Sound() && ds[k].code == 0 && !vs[k].Expired(ds[k].now)
  {
    assert Drew(vs[k], ds[k], vs[k + 1]);
    GenIncreases(vs, ds, i + 1, k);
    DiscardsTheBuffer(vs[k], ds[k], vs[k + 1]);
    if k < j {
      NextIncreases(vs, ds, k + 1, j);
      StartIsAhead(vs[j], ds[j].now);
    }
  }

  /** The stronger promise, that buffered keystream never outlives its own key's second: every
      byte in the buffer, whenever it can still be served, is within a second of the reading of
      the key it came from. */
  ghost predicate NeverOutlivesItsKey(v: View)
    requires v.Sound()
  {
    forall now, c :: !v.Expired(now) && v.next <= c < v.gen && c / BUDGET < v.Keys() ==> now - v.readAt[c / BUDGET] < LIFETIME
  }

  /** The buffer holds the end of one key and the source has read the next. */
  predicate Straddles(v: View)
    requires v.Sound()
  {
    !v.keyless && v.next < (v.Keys() - 1) * BUDGET
  }

  /** The promise holds exactly when the buffer holds nothing of an earlier key, or that key was
      read no earlier than the newest. */
  lemma OutlivesOnlyWhenStraddling(v: View)
    requires v.Sound()
    ensures Straddles(v) ==> v.Keys() >= 2
    ensures NeverOutlivesItsKey(v) <==> !Straddles(v) || v.readAt[v.Keys() - 1] <= v.readAt[v.Keys() - 2]
  {
    if v.keyless {
      return;
    }
    var k := v.Keys();
    BufferedKeys(v);
    if Straddles(v) {
      var now := v.KeyedAt() + LIFETIME - 1;
      assert v.next / BUDGET == k - 2;
      assert !v.Expired(now);
      if NeverOutlivesItsKey(v) {
        assert now - v.readAt[v.next / BUDGET] < LIFETIME;
      }
    }
  }

  lemma BufferedKeys(v: View)
    requires v.Sound() && !v.keyless
    ensures Straddles(v) ==> v.Keys() >= 2 && v.next / BUDGET == v.Keys() - 2
    ensures forall c :: v.next <= c < v.gen ==> c / BUDGET == v.Keys() - 1 || (Straddles(v) && c / BUDGET == v.Keys() - 2)
  {
    var k := v.Keys();
    if Straddles(v) {
      DivMod(k - 2, v.next - (k - 2) * BUDGET, BUDGET);
    }
    forall c | v.next <= c < v.gen
      ensures c / BUDGET == k - 1 || (Straddles(v) && c / BUDGET == k - 2)
    {
      if c < (k - 1) * BUDGET {
        DivMod(k - 2, c - (k - 2) * BUDGET, BUDGET);
      } else {
        DivMod(k - 1, c - (k - 1) * BUDGET, BUDGET);
      }
    }
  }

  /** Which draws leave such a buffer, told from the state before and the draw alone: those for
      which a multiple of the budget lies strictly between the bytes served and the bytes
      generated. */
  lemma StraddlesExactlyWhen(v: View, d: Draw, v': View)
    requires Drew(v, d, v') && d.code == 0 && d.size > 0
    ensures Straddles(v') <==> (v.NextAfter(d) / BUDGET + 1) * BUDGET < v.GenAfter(d)
  {
    var n := v.NextAfter(d) / BUDGET;
    assert n * BUDGET <= v'.next < (n + 1) * BUDGET;
    if (n + 1) * BUDGET < v'.gen {
      assert n + 1 <= v'.Keys() - 1;
    }
    if Straddles(v') {
      assert n + 1 <= v'.Keys() - 1;
    }
  }

  function EveryRead(attempt: nat): bool {
    true
  }

  /** A first key read at time 0, and every other at 0.9 s. */
  function ScriptedClock(attempt: nat): int {
    if attempt == 0 then 0 else 900_000_000
  }

  /** A draw from a source scripted so: it succeeds, and key `k` is read at attempt `k`. */
  method ScriptedFill(source: AesSource, dst: array<byte>, now: int)
    requires source.Valid() && dst != source.buf
    requires source.keyRead == EveryRead && source.clock == ScriptedClock && source.attempts == |source.readAt|
    modifies source, source.buf, dst
    ensures source.Valid() && source.attempts == |source.readAt| && source.buf == old(source.buf)
    ensures Drew(old(source.Seen()), Draw(now, dst.Length, 0), source.Seen())
    ensures old(source.readAt) <= source.readAt
    ensures forall k :: |old(source.readAt)| <= k < |source.readAt| ==> source.readAt[k] == ScriptedClock(k)
    ensures forall i :: 0 <= i < dst.Length ==> dst[i] == Keystream(source.ks, old(source.Seen()).Start(now) + i)
  {
    hide Keystream, View.Start, Served, AesSource.Valid;
    ghost var a, r := source.attempts, source.readAt;
    var code := source.Fill(dst, now);
    assert source.KeysRead(a, r, source.attempts, source.readAt, code == 0);
    forall k | |r| <= k < |source.readAt|
      ensures source.readAt[k] == ScriptedClock(k)
    {
      assert source.ReadBy(a + k - |r|, source.readAt[k]);
    }
  }

  /** A run of the source in which the stronger promise fails: the first key is spent to its last
      100 bytes at once; a short draw at 0.9 s refills the buffer across the budget, reading a
      second key; and a draw at 1.5 s, half a second past the first key's second, succeeds and
      gives out sixteen bytes of it. */
  method AKeyOutlivesItsSecond(ks: (nat, nat) -> byte) returns (source: AesSource, last: seq<byte>)
    ensures source.Valid() && source.ks == ks && source.keyRead == EveryRead && source.clock == ScriptedClock
    ensures source.readAt == [0, 900_000_000] && 1_500_000_000 - source.readAt[0] >= LIFETIME
    ensures |last| == 16 && forall i :: 0 <= i < 16 ==> last[i] == ks(0, BUDGET - 84 + i)
    ensures Straddles(source.Seen()) && !NeverOutlivesItsKey(source.Seen())
  {
    hide Keystream, NeverOutlivesItsKey, AesSource.Valid;
    source := new AesSource(ks, EveryRead, ScriptedClock);
    var most := new byte[BUDGET - 100];
    ScriptedFill(source, most, 0);
    assert source.Seen() == View(false, [0], BUDGET - 100, BUDGET - 100);
    var out := new byte[16];
    ScriptedFill(source, out, 900_000_000);
    assert source.Seen() == View(false, [0, 900_000_000], BUDGET - 84, BUDGET + 412);
    ScriptedFill(source, out, 1_500_000_000);
    assert source.Seen() == View(false, [0, 900_000_000], BUDGET - 68, BUDGET + 412);
    last := out[..];
    forall i | 0 <= i < 16
      ensures last[i] == ks(0, BUDGET - 84 + i)
    {
      OfTheFirstKey(ks, BUDGET - 84 + i);
    }
    OutlivesOnlyWhenStraddling(source.Seen());
  }

  lemma OfTheFirstKey(ks: (nat, nat) -> byte, index: nat)
    requires index < BUDGET
    ensures Keystream(ks, index) == ks(0, index)
  {
  }
}
