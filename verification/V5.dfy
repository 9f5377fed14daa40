/** Version 5 values (RFC 9562 section 5.5): how a namespace and a name are fed to SHA-1, block
    by block, and how the digest becomes a value. The compression function is abstract. */
module V5 {
  import opened Bits
  import opened Bytes
  import opened Words

  type Word32 = x: nat | x < 0x1_0000_0000

  datatype State = State(h0: Word32, h1: Word32, h2: Word32, h3: Word32, h4: Word32)

  type Compression = (State, seq<byte>) -> State

  const INITIAL := State(0x67452301, 0xEFCDAB89, 0x98BADCFE, 0x10325476, 0xC3D2E1F0)

  /** The core's data section: the initial digest state is read from here. */
  const DATA_AT: nat := 65536
  const DATA: seq<byte> := [0x01, 0x23, 0x45, 0x67, 0x89, 0xAB, 0xCD, 0xEF, 0xFE, 0xDC, 0xBA, 0x98,
                            0x76, 0x54, 0x32, 0x10, 0xF0, 0xE1, 0xD2, 0xC3]

  ghost predicate HasData(m: seq<byte>) {
    DATA_AT + 20 <= |m| && m[DATA_AT..DATA_AT + 20] == DATA
  }

  // ---- SHA-1, as FIPS 180-4 sections 5.1.1 and 6.1 put it -------------------------------------------

  function Zeros(n: nat): (s: seq<byte>)
    ensures |s| == n
  {
    seq<byte>(n, i => 0)
  }

  /** The zero bytes between the single one bit and the 64-bit length. */
  function PadZeros(n: nat): nat {
    (119 - n % 64) % 64
  }

  function Pad(m: seq<byte>): seq<byte> {
    m + [0x80] + Zeros(PadZeros(|m|)) + BEBytes(8 * |m|, 8)
  }

  /** The padding is a whole number of blocks, and no shorter padding is. */
  lemma PadFits(m: seq<byte>, z: nat)
    ensures |Pad(m)| % 64 == 0
    ensures z < PadZeros(|m|) ==> (|m| + 1 + z + 8) % 64 != 0
  {
    hide BEBytes, Zeros;
    PadCounts(|m| / 64, |m| % 64, z);
  }

  lemma PadCounts(q: nat, r: nat, z: nat)
    requires r < 64
    ensures (64 * q + r + 1 + (119 - r) % 64 + 8) % 64 == 0
    ensures z < (119 - r) % 64 ==> (64 * q + r + 1 + z + 8) % 64 != 0
  {
    if r < 56 {
      assert 64 * q + r + 1 + (119 - r) % 64 + 8 == 64 * (q + 1);
    } else {
      assert 64 * q + r + 1 + (119 - r) % 64 + 8 == 64 * (q + 2);
    }
  }

  /** The padded message is the message, one bit and zeros to a whole number of blocks, and the
      message's length in bits as a 64-bit big-endian number. */
  lemma PadReads(m: seq<byte>, i: nat)
    requires |m| < 0x2000_0000_0000_0000
    ensures var p := Pad(m);
      && |p| % 64 == 0 && |m| + 9 <= |p| < |m| + 73
      && p[..|m|] == m && p[|m|] == 0x80 && BE(p[|p| - 8..]) == 8 * |m|
      && (|m| < i < |p| - 8 ==> p[i] == 0)
  {
    hide BEBytes, BE;
    PadFits(m, 0);
    Eight(8 * |m|);
    var p, l := Pad(m), BEBytes(8 * |m|, 8);
    assert p == m + [0x80] + Zeros(PadZeros(|m|)) + l;
    assert p[|p| - 8..] == l;
  }

  lemma Eight(x: nat)
    requires x < TWO64
    ensures BE(BEBytes(x, 8)) == x
  {
    ReadBE(x, 8) by {
      Powers();
      Bits.Add(56, 8);
    }
  }

  /** The state after every block of `s`. */
  function Feed(f: Compression, st: State, s: seq<byte>): State
    requires |s| % 64 == 0
    decreases |s|
  {
    if s == [] then st else Feed(f, f(st, s[..64]), s[64..])
  }

  lemma {:induction false} FeedConcat(f: Compression, st: State, s: seq<byte>, t: seq<byte>)
    requires |s| % 64 == 0 && |t| % 64 == 0
    ensures Feed(f, st, s + t) == Feed(f, Feed(f, st, s), t)
    decreases |s|
  {
    if s == [] {
      assert s + t == t;
    } else {
      assert (s + t)[..64] == s[..64] && (s + t)[64..] == s[64..] + t;
      FeedConcat(f, f(st, s[..64]), s[64..], t);
    }
  }

  lemma FeedNothing(f: Compression, st: State)
    ensures Feed(f, st, []) == st
  {
  }

  lemma FeedOne(f: Compression, st: State, s: seq<byte>)
    requires |s| == 64
    ensures Feed(f, st, s) == f(st, s)
  {
    assert s[..64] == s && s[64..] == [];
    assert Feed(f, f(st, s), []) == f(st, s);
  }

  function Sha1(f: Compression, m: seq<byte>): State {
    PadFits(m, 0);
    Feed(f, INITIAL, Pad(m))
  }

  /** The first sixteen bytes of the digest with the version and the variant written over them. */
  function IdOf(st: State): (id: seq<byte>)
    ensures |id| == 16
  {
    var d := BEBytes(st.h0, 4) + BEBytes(st.h1, 4) + BEBytes(st.h2, 4) + BEBytes(st.h3, 4);
    d[..6] + [0x50 + d[6] % 16, d[7], 0x80 + d[8] % 64] + d[9..]
  }

  /** SHA-1 starts from the five words of section 5.3.1 of FIPS 180-4. */
  lemma StartsFromTheStandardState(f: Compression, m: seq<byte>)
    ensures |Pad(m)| % 64 == 0
    ensures Sha1(f, m) == Feed(f, State(0x67452301, 0xEFCDAB89, 0x98BADCFE, 0x10325476, 0xC3D2E1F0), Pad(m))
  {
    PadFits(m, 0);
  }

  /** A value is the digest's first 128 bits but for the four of the version, 5, and the two of the
      variant. */
  lemma IdReads(st: State)
    ensures var id := IdOf(st);
      && id[6] / 16 == 5 && id[8] / 64 == 2
      && BE(id[..4]) == st.h0 && BE(id[12..]) == st.h3
      && exists d6: byte, d8: byte ::
           && d6 % 16 == id[6] % 16 && d8 % 64 == id[8] % 64
           && BE([id[4], id[5], d6, id[7]]) == st.h1 && BE([d8, id[9], id[10], id[11]]) == st.h2
  {
    hide BEBytes, BE;
    var a, b, c, d := BEBytes(st.h0, 4), BEBytes(st.h1, 4), BEBytes(st.h2, 4), BEBytes(st.h3, 4);
    IdOfWords(st);
    var id := IdOf(st);
    hide IdOf;
    Four(st.h0);
    Four(st.h1);
    Four(st.h2);
    Four(st.h3);
    assert id[..4] == a && id[12..] == d;
    assert [id[4], id[5], b[2], id[7]] == b && [c[0], id[9], id[10], id[11]] == c;
    Marks(b[2], c[0]);
  }

  lemma Marks(p: byte, q: byte)
    ensures (0x50 + p % 16) / 16 == 5 && (0x50 + p % 16) % 16 == p % 16
    ensures (0x80 + q % 64) / 64 == 2 && (0x80 + q % 64) % 64 == q % 64
  {
  }

  lemma Four(x: Word32)
    ensures BE(BEBytes(x, 4)) == x
  {
    ReadBE(x, 4) by { Powers(); }
  }

  // ---- The blocks that are fed ------------------------------------------------------------------------

  /** How the message ends: with `t` bytes left over after whole blocks, one more block holds
      them, the one bit and the length when there is room. */
  lemma OneLastBlock(m: seq<byte>, p: nat, t: nat)
    requires p + t == |m| && p % 64 == 0 && t < 56
    ensures Pad(m) == m[..p] + (m[p..] + [0x80] + Zeros(55 - t) + BEBytes(8 * |m|, 8))
  {
    hide BEBytes, Zeros, PadZeros;
    OneRoom(|m|, p, t);
    var l := BEBytes(8 * |m|, 8);
    assert Pad(m) == m + [0x80] + Zeros(55 - t) + l;
    hide Pad;
    assert m == m[..p] + m[p..];
    Regroup(m[..p], m[p..], [0x80], Zeros(55 - t), l);
  }

  /** Else two blocks do. */
  lemma TwoLastBlocks(m: seq<byte>, p: nat, t: nat)
    requires p + t == |m| && p % 64 == 0 && 56 <= t < 64
    ensures Pad(m) == m[..p] + (m[p..] + [0x80] + Zeros(63 - t)) + (Zeros(56) + BEBytes(8 * |m|, 8))
  {
    hide BEBytes, Zeros, PadZeros;
    RoomForTwo(|m|, p, t);
    var l := BEBytes(8 * |m|, 8);
    assert Pad(m) == m + [0x80] + (Zeros(63 - t) + Zeros(56)) + l;
    hide Pad;
    assert m == m[..p] + m[p..];
    RegroupTwo(m[..p], m[p..], [0x80], Zeros(63 - t), Zeros(56), l);
  }

  lemma Associate(a: seq<byte>, b: seq<byte>, c: seq<byte>)
    ensures a + b + c == a + (b + c)
  {
  }

  lemma Regroup(a: seq<byte>, b: seq<byte>, c: seq<byte>, d: seq<byte>, e: seq<byte>)
    ensures (a + b) + c + d + e == a + (b + c + d + e)
  {
    Associate(a, b, c);
    Associate(a, b + c, d);
    Associate(a, b + c + d, e);
  }

  lemma RegroupTwo(a: seq<byte>, b: seq<byte>, c: seq<byte>, d: seq<byte>, e: seq<byte>, f: seq<byte>)
    ensures (a + b) + c + (d + e) + f == a + (b + c + d) + (e + f)
  {
    Associate(a + b + c, d, e);
    Regroup(a, b, c, d, e);
    Associate(a, b + c + d, e);
    Associate(a + (b + c + d), e, f);
  }

  lemma OneRoom(n: nat, p: nat, t: nat)
    requires p + t == n && p % 64 == 0 && t < 56
    ensures PadZeros(n) == 55 - t
  {
    DivMod(p / 64, t, 64);
    DivMod(1, 55 - t, 64);
  }

  lemma RoomForTwo(n: nat, p: nat, t: nat)
    requires p + t == n && p % 64 == 0 && 56 <= t < 64
    ensures Zeros(PadZeros(n)) == Zeros(63 - t) + Zeros(56)
  {
    DivMod(p / 64, t, 64);
    assert PadZeros(n) == (63 - t) + 56;
  }

  /** The byte-swapped bit length of a message of `v6` bytes. */
  function LengthWord(v6: nat): nat {
    Or(And(v6 / 0x20, 0x700_0000),
       Or(Or(U64(v6 * 0x800_0000_0000_0000), And(U64(v6 * 0x800_0000_0000), 0xFF_0000_0000_0000)),
          Or(And(U64(v6 * 0x800_0000), 0xFF00_0000_0000), And(U64(v6 * 0x800), 0xFF_0000_0000))))
  }

  lemma LengthFields(v6: nat)
    requires v6 < TWO32
    ensures var l := 8 * v6;
      && And(v6 / 0x20, 0x700_0000) == ToByte(l / 0x1_0000_0000) * 0x100_0000
      && U64(v6 * 0x800_0000_0000_0000) == ToByte(l) * 0x100_0000_0000_0000
      && And(U64(v6 * 0x800_0000_0000), 0xFF_0000_0000_0000) == ToByte(l / 0x100) * 0x1_0000_0000_0000
      && And(U64(v6 * 0x800_0000), 0xFF00_0000_0000) == ToByte(l / 0x1_0000) * 0x100_0000_0000
      && And(U64(v6 * 0x800), 0xFF_0000_0000) == ToByte(l / 0x100_0000) * 0x1_0000_0000
  {
    hide And;
    Mask3At24(v6 / 0x20);
    Mask8At48(U64(v6 * 0x800_0000_0000));
    Mask8At40(U64(v6 * 0x800_0000));
    Mask8At32(U64(v6 * 0x800));
    LengthShift24(v6);
    TopByte(8 * v6);
    LengthShift48(v6);
    LengthShift40(v6);
    LengthShift32(v6);
  }

  lemma Mask3At24(x: nat)
    ensures And(x, 0x700_0000) == x / 0x100_0000 % 8 * 0x100_0000
  {
    hide And, Pow2;
    Powers();
    Field(x, 24, 3, 0x100_0000, 8, 0x700_0000);
  }

  lemma Mask8At32(x: nat)
    ensures And(x, 0xFF_0000_0000) == x / 0x1_0000_0000 % 0x100 * 0x1_0000_0000
  {
    hide And, Pow2;
    Powers();
    Field(x, 32, 8, 0x1_0000_0000, 0x100, 0xFF_0000_0000);
  }

  lemma Mask8At40(x: nat)
    ensures And(x, 0xFF00_0000_0000) == x / 0x100_0000_0000 % 0x100 * 0x100_0000_0000
  {
    hide And, Pow2;
    Powers();
    Field(x, 40, 8, 0x100_0000_0000, 0x100, 0xFF00_0000_0000);
  }

  lemma Mask8At48(x: nat)
    ensures And(x, 0xFF_0000_0000_0000) == x / 0x1_0000_0000_0000 % 0x100 * 0x1_0000_0000_0000
  {
    hide And, Pow2;
    Powers();
    Field(x, 48, 8, 0x1_0000_0000_0000, 0x100, 0xFF_0000_0000_0000);
  }

  lemma LengthShift24(v6: nat)
    requires v6 < TWO32
    ensures v6 / 0x20 / 0x100_0000 % 8 == ToByte(8 * v6 / 0x1_0000_0000)
  {
    assert v6 / 0x20 / 0x100_0000 == v6 / 0x2000_0000 == 8 * v6 / 0x1_0000_0000;
  }

  lemma LengthShift48(v6: nat)
    requires v6 < TWO32
    ensures U64(v6 * 0x800_0000_0000) / 0x1_0000_0000_0000 % 0x100 == ToByte(8 * v6 / 0x100)
  {
    var q, r := v6 / 0x20_0000, v6 % 0x20_0000;
    assert v6 * 0x800_0000_0000 == q * TWO64 + r * 0x800_0000_0000;
    DivMod(q, r * 0x800_0000_0000, TWO64);
    Shift48(q, r);
  }

  lemma Shift48(q: nat, r: nat)
    ensures r * 0x800_0000_0000 / 0x1_0000_0000_0000 == r / 0x20
    ensures 8 * (q * 0x20_0000 + r) / 0x100 % 0x100 == r / 0x20 % 0x100
  {
    var y, z := r / 0x20, r % 0x20;
    DivMod(y, z * 0x800_0000_0000, 0x1_0000_0000_0000);
    DivMod(q * 0x1_0000 + y, z * 8, 0x100);
    DivMod(q * 0x100 + y / 0x100, y % 0x100, 0x100);
  }

  lemma LengthShift40(v6: nat)
    requires v6 < TWO32
    ensures U64(v6 * 0x800_0000) / 0x100_0000_0000 % 0x100 == ToByte(8 * v6 / 0x1_0000)
  {
    assert v6 * 0x800_0000 < TWO64;
    assert v6 * 0x800_0000 / 0x100_0000_0000 == v6 / 0x2000 == 8 * v6 / 0x1_0000;
  }

  lemma LengthShift32(v6: nat)
    requires v6 < TWO32
    ensures U64(v6 * 0x800) / 0x1_0000_0000 % 0x100 == ToByte(8 * v6 / 0x100_0000)
  {
    assert v6 * 0x800 < TWO64;
    assert v6 * 0x800 / 0x1_0000_0000 == v6 / 0x20_0000 == 8 * v6 / 0x100_0000;
  }

  /** Stored as a little-endian word, it is the big-endian bit length of the padding. */
  lemma LengthBytes(v6: nat)
    requires v6 < TWO32
    ensures LEBytes(LengthWord(v6), 8) == BEBytes(8 * v6, 8)
  {
    hide And, Or, LEBytes, LE, U64;
    var l := 8 * v6;
    LengthFields(v6);
    var b3, b4, b5, b6, b7 := ToByte(l / 0x1_0000_0000), ToByte(l / 0x100_0000), ToByte(l / 0x1_0000), ToByte(l / 0x100), ToByte(l);
    LengthJoin(b3, b4, b5, b6, b7);
    BigEndian8(l);
    LittleEndian8(b3, b4, b5, b6, b7);
    StoreThenRead([0, 0, 0, b3, b4, b5, b6, b7]);
  }

  lemma LengthJoin(b3: byte, b4: byte, b5: byte, b6: byte, b7: byte)
    ensures Or(b3 as nat * 0x100_0000,
               Or(Or(b7 as nat * 0x100_0000_0000_0000, b6 as nat * 0x1_0000_0000_0000),
                  Or(b5 as nat * 0x100_0000_0000, b4 as nat * 0x1_0000_0000)))
         == b7 as nat * 0x100_0000_0000_0000 + b6 as nat * 0x1_0000_0000_0000 + b5 as nat * 0x100_0000_0000
            + b4 as nat * 0x1_0000_0000 + b3 as nat * 0x100_0000
  {
    hide Or;
    var x3: nat, x4: nat, x5: nat, x6: nat, x7: nat := b3, b4, b5, b6, b7;
    Join56(x7, x6 * 0x1_0000_0000_0000);
    Join40(x5, x4 * 0x1_0000_0000);
    Join48(x7 * 0x100 + x6, x5 * 0x100_0000_0000 + x4 * 0x1_0000_0000);
    var top := ((x7 * 0x100 + x6) * 0x100 + x5) * 0x100 + x4;
    Join32(top, x3 * 0x100_0000);
    OrSwap(x3 * 0x100_0000, top * 0x1_0000_0000);
  }

  lemma BigEndian8(l: nat)
    requires l < 0x100_0000_0000
    ensures BEBytes(l, 8) == [0, 0, 0, ToByte(l / 0x1_0000_0000), ToByte(l / 0x100_0000), ToByte(l / 0x1_0000), ToByte(l / 0x100), ToByte(l)]
  {
    var a := l / 0x100;
    var b := a / 0x100;
    assert BEBytes(l, 8) == BEBytes(b, 6) + [ToByte(a), ToByte(l)] by {
      assert BEBytes(a, 7) == BEBytes(b, 6) + [ToByte(a)];
    }
    BigEndian6(b);
    TwoDown(l);
  }

  lemma TwoDown(l: nat)
    requires l < 0x100_0000_0000
    ensures var b := l / 0x100 / 0x100;
      && ToByte(b / 0x100_0000_0000) == 0 && ToByte(b / 0x1_0000_0000) == 0 && ToByte(b / 0x100_0000) == 0
      && b / 0x1_0000 == l / 0x1_0000_0000 && b / 0x100 == l / 0x100_0000 && b == l / 0x1_0000
  {
  }

  lemma LittleEndian8(b3: byte, b4: byte, b5: byte, b6: byte, b7: byte)
    ensures LE([0, 0, 0, b3, b4, b5, b6, b7])
         == b7 as nat * 0x100_0000_0000_0000 + b6 as nat * 0x1_0000_0000_0000 + b5 as nat * 0x100_0000_0000
            + b4 as nat * 0x1_0000_0000 + b3 as nat * 0x100_0000
  {
    assert [0, 0, 0, b3, b4, b5, b6, b7] == [0, 0] + [0, b3, b4, b5, b6, b7];
    LEAfter2([0, 0], [0, b3, b4, b5, b6, b7]);
    LE2(0, 0);
    LE6(0, b3, b4, b5, b6, b7);
  }

  // ---- The call ---------------------------------------------------------------------------------------

  /** The compression loop: `n` whole blocks read from `at` on. */
  method Compress(f: Compression, st: State, mem: array<byte>, at: nat, n: nat) returns (st': State)
    requires at + 64 * n <= mem.Length
    ensures 64 * n == |mem[at..at + 64 * n]|
    ensures st' == Feed(f, st, mem[at..at + 64 * n])
  {
    st' := st;
    var v1 := at;
    for i := 0 to n
      invariant v1 == at + 64 * i
      invariant st' == Feed(f, st, mem[at..v1])
    {
      assert mem[at..v1 + 64] == mem[at..v1] + mem[v1..v1 + 64];
      FeedConcat(f, st, mem[at..v1], mem[v1..v1 + 64]);
      FeedOne(f, st', mem[v1..v1 + 64]);
      st' := f(st', mem[v1..v1 + 64]);
      v1 := v1 + 64;
    }
  }

  /** The state has taken in all of `m` but its last `tail` bytes, which begin a zeroed block. */
  ghost predicate Leftover(f: Compression, m: seq<byte>, st: State, tail: nat, block: seq<byte>) {
    && tail < 64 && tail <= |m| && (|m| - tail) % 64 == 0
    && st == Feed(f, INITIAL, m[..|m| - tail])
    && block == m[|m| - tail..] + Zeros(64 - tail)
  }

  /** The initial state, as the data section holds it. */
  method LoadState(mem: array<byte>) returns (st: State)
    requires HasData(mem[..])
    ensures st == INITIAL
  {
    hide LE;
    DataWords();
    WordAt(mem, 0);
    WordAt(mem, 4);
    WordAt(mem, 8);
    WordAt(mem, 12);
    WordAt(mem, 16);
    st := State(Load(mem, DATA_AT, 4), Load(mem, DATA_AT + 4, 4), Load(mem, DATA_AT + 8, 4), Load(mem, DATA_AT + 12, 4), Load(mem, DATA_AT + 16, 4));
  }

  lemma WordAt(mem: array<byte>, i: nat)
    requires i + 4 <= 20 && HasData(mem[..])
    ensures Load(mem, DATA_AT + i, 4) == LE([DATA[i], DATA[i + 1], DATA[i + 2], DATA[i + 3]])
  {
    hide LE;
    SubSlice(mem[..], DATA_AT, DATA_AT + 20, i, i + 4);
    assert mem[DATA_AT + i..DATA_AT + i + 4] == mem[..][DATA_AT + i..DATA_AT + i + 4];
    assert DATA[i..i + 4] == [DATA[i], DATA[i + 1], DATA[i + 2], DATA[i + 3]];
  }

  lemma DataWords()
    ensures LE([DATA[0], DATA[1], DATA[2], DATA[3]]) == INITIAL.h0
    ensures LE([DATA[4], DATA[5], DATA[6], DATA[7]]) == INITIAL.h1
    ensures LE([DATA[8], DATA[9], DATA[10], DATA[11]]) == INITIAL.h2
    ensures LE([DATA[12], DATA[13], DATA[14], DATA[15]]) == INITIAL.h3
    ensures LE([DATA[16], DATA[17], DATA[18], DATA[19]]) == INITIAL.h4
  {
    hide LE;
    LE4Is(DATA[0], DATA[1], DATA[2], DATA[3]);
    LE4Is(DATA[4], DATA[5], DATA[6], DATA[7]);
    LE4Is(DATA[8], DATA[9], DATA[10], DATA[11]);
    LE4Is(DATA[12], DATA[13], DATA[14], DATA[15]);
    LE4Is(DATA[16], DATA[17], DATA[18], DATA[19]);
  }

  /** The head of a message in a zeroed block is what is left over when it is the whole message. */
  lemma AllLeftOver(f: Compression, m: seq<byte>, tail: nat, block: seq<byte>)
    requires |m| == tail < 64 && block == m + Zeros(64 - tail)
    ensures Leftover(f, m, INITIAL, tail, block)
  {
    assert m[..0] == [] && m[0..] == m;
    FeedNothing(f, INITIAL);
  }

  /** The first block of a message: its head over zeros. */
  lemma FirstBlock(mem: seq<byte>, v0: nat, name: nat, len: nat, n: nat, block: seq<byte>)
    requires v0 + 16 <= |mem| && (len > 0 ==> name + len <= |mem|) && |block| == 64
    requires n == if len < 48 then len else 48
    requires forall i :: 0 <= i < 16 ==> block[i] == mem[v0 + i]
    requires forall i :: 16 <= i < 16 + n ==> block[i] == mem[name + (i - 16)]
    requires forall i :: 16 + n <= i < 64 ==> block[i] == 0
    ensures block == Message(mem, v0, name, len)[..16 + n] + Zeros(48 - n)
  {
    var m := Message(mem, v0, name, len);
    assert m[..16] == mem[v0..v0 + 16];
    assert len > 0 ==> m[16..] == mem[name..name + len];
    forall i | 0 <= i < 64
      ensures block[i] == (m[..16 + n] + Zeros(48 - n))[i]
    {
      if 16 <= i < 16 + n {
        assert m[i] == m[16..][i - 16];
      }
    }
  }

  /** Feeds the whole blocks of namespace and name, and leaves the rest in `block` over zeros. */
  method FeedWhole(f: Compression, mem: array<byte>, v0: nat, name: nat, len: nat, block: array<byte>)
    returns (st: State, tail: nat)
    requires HasData(mem[..]) && v0 + 16 <= mem.Length && len < 0x8000_0000 && (len > 0 ==> name + len <= mem.Length)
    requires block.Length == 64 && block != mem
    modifies block
    ensures Leftover(f, Message(mem[..], v0, name, len), st, tail, block[..])
  {
    hide Zeros, Feed, Message, Leftover, HasData;
    ghost var m := Message(mem[..], v0, name, len);
    st := LoadState(mem);
    Clear(block, 0, 64);
    CopyBytes(mem, v0, block, 0, 16);
    var v5 := if len != 0 then name else 1;
    var v1 := if len < 48 then len else 48;
    if v1 != 0 {
      CopyBytes(mem, v5, block, 16, v1);
    }
    tail := v1 + 16;
    FirstBlock(mem[..], v0, name, len, v1, block[..]);
    if tail != 64 {
      assert m[..tail] == m;
      AllLeftOver(f, m, tail, block[..]);
      return;
    }
    assert block[0..0 + 64 * 1] == m[..64] + Zeros(0) == m[..64];
    st := Compress(f, st, block, 0, 1);
    st, tail := FeedBulk(f, st, mem, v0, name, len, block);
  }

  /** The rest of a long name: its whole blocks, then what is left. */
  method FeedBulk(f: Compression, st: State, mem: array<byte>, ghost v0: nat, name: nat, len: nat, block: array<byte>)
    returns (st': State, tail: nat)
    requires v0 + 16 <= mem.Length && 48 <= len < 0x8000_0000 && name + len <= mem.Length
    requires block.Length == 64 && block != mem
    requires st == Feed(f, INITIAL, Message(mem[..], v0, name, len)[..64])
    modifies block
    ensures Leftover(f, Message(mem[..], v0, name, len), st', tail, block[..])
  {
    hide And, Feed, Zeros, Message;
    ghost var m := Message(mem[..], v0, name, len);
    var v5 := name + 48;
    var v1 := len - 48;
    assert mem[v5..v5 + 64 * (v1 / 64)] == mem[..][v5..v5 + v1 / 64 * 64];
    st' := Compress(f, st, mem, v5, v1 / 64);
    Clear(block, 0, 64);
    Mask6(v1);
    Mask25At6(v1);
    tail := And(v1, 63);
    if tail != 0 {
      CopyBytes(mem, v5 + And(v1, 0x7FFF_FFC0), block, 0, tail);
    }
    BulkLeftOver(f, mem[..], v0, name, len, block[..]);
  }

  /** After the bulk, the last bytes of the name over zeros are what is left over. */
  lemma BulkLeftOver(f: Compression, mem: seq<byte>, v0: nat, name: nat, len: nat, block: seq<byte>)
    requires v0 + 16 <= |mem| && len >= 48 && name + len <= |mem| && |block| == 64
    requires var n, t := (len - 48) / 64 * 64, (len - 48) % 64;
      && (forall i :: 0 <= i < t ==> block[i] == mem[name + 48 + n + i])
      && (forall i :: t <= i < 64 ==> block[i] == 0)
    ensures var m, n, t := Message(mem, v0, name, len), (len - 48) / 64 * 64, (len - 48) % 64;
      Leftover(f, m, Feed(f, Feed(f, INITIAL, m[..64]), mem[name + 48..name + 48 + n]), t, block)
  {
    hide Feed, Zeros, Message;
    var n, t := (len - 48) / 64 * 64, (len - 48) % 64;
    BulkIsMessage(f, mem, v0, name, len);
    TailOfMessage(mem, v0, name, len);
    assert block[..t] == mem[name + 48 + n..name + len];
    ZeroRest(block, t);
  }

  lemma TailOfMessage(mem: seq<byte>, v0: nat, name: nat, len: nat)
    requires v0 + 16 <= |mem| && len >= 48 && name + len <= |mem|
    ensures var m, n, t := Message(mem, v0, name, len), (len - 48) / 64 * 64, (len - 48) % 64;
      && |m| - t == 64 + n && (|m| - t) % 64 == 0
      && m[|m| - t..] == mem[name + 48 + n..name + len]
  {
    var n, t := (len - 48) / 64 * 64, (len - 48) % 64;
    assert n + t == len - 48;
  }

  lemma ZeroRest(b: seq<byte>, tail: nat)
    requires tail <= |b| == 64 && forall i :: tail <= i < 64 ==> b[i] == 0
    ensures b == b[..tail] + Zeros(64 - tail)
  {
  }

  /** Past the first block, whole blocks are taken straight from the name. */
  lemma BulkIsMessage(f: Compression, mem: seq<byte>, v0: nat, name: nat, len: nat)
    requires v0 + 16 <= |mem| && len >= 48 && name + len <= |mem|
    ensures var m, n := Message(mem, v0, name, len), (len - 48) / 64 * 64;
      Feed(f, INITIAL, m[..64 + n]) == Feed(f, Feed(f, INITIAL, m[..64]), mem[name + 48..name + 48 + n])
  {
    var m, n := Message(mem, v0, name, len), (len - 48) / 64 * 64;
    assert m[..64 + n] == m[..64] + mem[name + 48..name + 48 + n];
    FeedConcat(f, INITIAL, m[..64], mem[name + 48..name + 48 + n]);
  }

  /** The bytes of the message, namespace first. */
  function Message(m: seq<byte>, v0: nat, name: nat, len: nat): (s: seq<byte>)
    requires v0 + 16 <= |m| && (len > 0 ==> name + len <= |m|)
    ensures |s| == 16 + len
  {
    m[v0..v0 + 16] + if len > 0 then m[name..name + len] else []
  }

  lemma Mask25At6(x: nat)
    requires x < 0x8000_0000
    ensures And(x, 0x7FFF_FFC0) == x / 64 * 64
  {
    hide And, Pow2;
    Powers();
    Bits.Add(20, 5);
    Field(x, 6, 25, 64, 0x200_0000, 0x7FFF_FFC0);
  }

  /** The last block of a message, when one is enough, and the two when it is not. */
  lemma EndsInOne(f: Compression, m: seq<byte>, st: State, tail: nat)
    requires tail < 56 && tail <= |m| && (|m| - tail) % 64 == 0 && st == Feed(f, INITIAL, m[..|m| - tail])
    ensures var last := m[|m| - tail..] + [0x80] + Zeros(55 - tail) + BEBytes(8 * |m|, 8);
      |last| == 64 && Feed(f, st, last) == Sha1(f, m)
  {
    hide BEBytes, Zeros, Pad, Feed;
    var p := |m| - tail;
    OneLastBlock(m, p, tail);
    FeedConcat(f, INITIAL, m[..p], m[p..] + [0x80] + Zeros(55 - tail) + BEBytes(8 * |m|, 8));
  }

  lemma EndsInTwo(f: Compression, m: seq<byte>, st: State, tail: nat)
    requires 56 <= tail < 64 && tail <= |m| && (|m| - tail) % 64 == 0 && st == Feed(f, INITIAL, m[..|m| - tail])
    ensures var last := m[|m| - tail..] + [0x80] + Zeros(63 - tail);
      |last| == 64 && Feed(f, Feed(f, st, last), Zeros(56) + BEBytes(8 * |m|, 8)) == Sha1(f, m)
  {
    hide BEBytes, Zeros, Pad, Feed;
    var p := |m| - tail;
    var last := m[p..] + [0x80] + Zeros(63 - tail);
    TwoLastBlocks(m, p, tail);
    FeedConcat(f, INITIAL, m[..p], last);
    FeedConcat(f, INITIAL, m[..p] + last, Zeros(56) + BEBytes(8 * |m|, 8));
  }

  /** Adds the one bit, the zeros and the length to the last bytes and feeds them. */
  method FeedLast(f: Compression, st: State, block: array<byte>, tail: nat, len: nat, ghost m: seq<byte>) returns (st': State)
    requires block.Length == 64 && |m| == len + 16 && len < 0x8000_0000
    requires Leftover(f, m, st, tail, block[..])
    modifies block
    ensures st' == Sha1(f, m)
  {
    hide LengthWord, LEBytes, BEBytes, Feed, Sha1;
    LengthBytes(len + 16);
    st' := st;
    block[tail] := 128;
    if tail >= 56 {
      EndsInTwo(f, m, st, tail);
      assert block[0..0 + 64 * 1] == m[|m| - tail..] + [0x80] + Zeros(63 - tail);
      st' := Compress(f, st', block, 0, 1);
      Clear(block, 0, 56);
      assert block[..56] == Zeros(56);
      Store(block, 56, 8, LengthWord(len + 16));
      assert block[0..0 + 64 * 1] == Zeros(56) + BEBytes(8 * |m|, 8);
    } else {
      EndsInOne(f, m, st, tail);
      assert block[..56] == m[|m| - tail..] + [0x80] + Zeros(55 - tail);
      Store(block, 56, 8, LengthWord(len + 16));
      assert block[0..0 + 64 * 1] == m[|m| - tail..] + [0x80] + Zeros(55 - tail) + BEBytes(8 * |m|, 8);
    }
    st' := Compress(f, st', block, 0, 1);
  }

  // ---- The digest becomes a value ---------------------------------------------------------------------

  function Rotr(x: nat, low: nat, high: nat): nat
    requires low > 0
  {
    x / low + x % low * high
  }

  /** The core's byte swap of a 32-bit word. */
  function SwapWord(x: nat): nat {
    Xor(And(Xor(x, Rotr(x, 0x1_0000, 0x1_0000)), 0xFF00_FF00) / 0x100, Rotr(x, 0x100, 0x100_0000))
  }

  lemma SwapWordBytes(x: Word32)
    ensures LEBytes(SwapWord(x), 4) == BEBytes(x, 4)
  {
    hide SwapWord, LEBytes;
    BigEndian4(x);
    var a, b, c, d := ToByte(x / 0x100_0000), ToByte(x / 0x1_0000), ToByte(x / 0x100), ToByte(x);
    SwapWordIs(a, b, c, d);
    WordOfBytes(x);
    LE4Is(a, b, c, d);
    StoreThenRead([a, b, c, d]);
  }

  lemma WordOfBytes(x: Word32)
    ensures x == (x / 0x100_0000 % 0x100 * 0x100 + x / 0x1_0000 % 0x100) * 0x1_0000 + (x / 0x100 % 0x100 * 0x100 + x % 0x100)
  {
    var h, l := x / 0x1_0000, x % 0x1_0000;
    DivMod(h / 0x100, h % 0x100 * 0x1_0000 + l, 0x100_0000);
    DivMod(h * 0x100 + l / 0x100, l % 0x100, 0x100);
    DivMod(h, l / 0x100, 0x100);
  }

  lemma BigEndian4(x: nat)
    ensures BEBytes(x, 4) == [ToByte(x / 0x100_0000), ToByte(x / 0x1_0000), ToByte(x / 0x100), ToByte(x)]
  {
    BigEndian3(x / 0x100);
    assert x / 0x100 / 0x1_0000 == x / 0x100_0000 && x / 0x100 / 0x100 == x / 0x1_0000;
  }

  lemma LE4Is(a: byte, b: byte, c: byte, d: byte)
    ensures LE([a, b, c, d]) == a + 0x100 * b as nat + 0x1_0000 * c as nat + 0x100_0000 * d as nat
  {
    assert [a, b, c, d] == [a, b] + [c, d];
    LEAfter2([a, b], [c, d]);
    LE2(a, b);
    LE2(c, d);
  }

  lemma XorAt8(h: nat, l: nat, h': nat, l': nat)
    requires l < 0x100 && l' < 0x100
    ensures Xor(h * 0x100 + l, h' * 0x100 + l') == Xor(h, h') * 0x100 + Xor(l, l')
  {
    hide Xor, Pow2, Shl;
    Powers();
    ShlIsTimes(h, 8);
    ShlIsTimes(h', 8);
    ShlIsTimes(Xor(h, h'), 8);
    XorSplit(h, l, h', l', 8);
  }

  lemma XorAt16(h: nat, l: nat, h': nat, l': nat)
    requires l < 0x1_0000 && l' < 0x1_0000
    ensures Xor(h * 0x1_0000 + l, h' * 0x1_0000 + l') == Xor(h, h') * 0x1_0000 + Xor(l, l')
    ensures Xor(l, l') < 0x1_0000
  {
    hide Xor, Pow2, Shl;
    Powers();
    ShlIsTimes(h, 16);
    ShlIsTimes(h', 16);
    ShlIsTimes(Xor(h, h'), 16);
    XorSplit(h, l, h', l', 16);
    XorBelow(l, l', 16);
  }

  lemma XorBytes(p: byte, q: byte)
    ensures Xor(p, q) < 0x100
    ensures Xor(Xor(p, q), p) == q && Xor(0, q) == q
  {
    XorBelow(p, q, 8) by { Powers(); }
    assert Pow2(8) == 0x100 by { Powers(); }
    XorCancels(p, q);
  }

  lemma SwapWordIs(a: byte, b: byte, c: byte, d: byte)
    ensures SwapWord((a as nat * 0x100 + b) * 0x1_0000 + (c as nat * 0x100 + d))
         == (d as nat * 0x100 + c) * 0x1_0000 + (b as nat * 0x100 + a)
  {
    hide And, Xor;
    var h: nat, l: nat := a as nat * 0x100 + b, c as nat * 0x100 + d;
    var x := h * 0x1_0000 + l;
    Rotations(a, b, c, d);
    XorAt16(h, l, l, h);
    XorBytes(a, c);
    XorBytes(c, a);
    XorBytes(b, d);
    XorBytes(d, b);
    XorAt8(a, b, c, d);
    XorAt8(c, d, a, b);
    var p, p' := Xor(a, c), Xor(c, a);
    KeepHighBytes(p, Xor(b, d), p', Xor(d, b));
    assert And(Xor(x, Rotr(x, 0x1_0000, 0x1_0000)), 0xFF00_FF00) / 0x100 == p * 0x1_0000 + p';
    XorAt16(p, p', d as nat * 0x100 + a, b as nat * 0x100 + c);
    XorAt8(0, p, d, a);
    XorAt8(0, p', b, c);
    XorBytes(0, d);
    XorBytes(0, b);
  }

  lemma Rotations(a: byte, b: byte, c: byte, d: byte)
    ensures var x := (a as nat * 0x100 + b) * 0x1_0000 + (c as nat * 0x100 + d);
      && Rotr(x, 0x1_0000, 0x1_0000) == (c as nat * 0x100 + d) * 0x1_0000 + (a as nat * 0x100 + b)
      && Rotr(x, 0x100, 0x100_0000) == (d as nat * 0x100 + a) * 0x1_0000 + (b as nat * 0x100 + c)
  {
    var x: nat, y: nat := a as nat * 0x100 + b, c as nat * 0x100 + d;
    DivMod(x, y, 0x1_0000);
    DivMod(x * 0x100 + c, d, 0x100);
  }

  lemma KeepHighBytes(p: nat, q: nat, p': nat, q': nat)
    requires p < 0x100 && q < 0x100 && p' < 0x100 && q' < 0x100
    ensures And((p * 0x100 + q) * 0x1_0000 + (p' * 0x100 + q'), 0xFF00_FF00) / 0x100 == p * 0x1_0000 + p'
  {
    hide And;
    AndAt16(p * 0x100 + q, p' * 0x100 + q', 0xFF00, 0xFF00);
    Mask8At8(p * 0x100 + q);
    Mask8At8(p' * 0x100 + q');
    assert (p * 0x100 + q) / 0x100 == p && (p' * 0x100 + q') / 0x100 == p';
  }

  /** The version nibble of the second word and the variant bits of the third. */
  lemma VersionWord(x: Word32)
    ensures var v := Or(And(x, 0xFFFF_0FFF), 0x5000);
      v < 0x1_0000_0000 && BEBytes(v, 4) == BEBytes(x, 4)[..2] + [0x50 + BEBytes(x, 4)[2] % 16, BEBytes(x, 4)[3]]
  {
    hide And, Or, BEBytes;
    var h, n, l := x / 0x1_0000, x / 0x1000 % 16, x % 0x1000;
    assert x == h * 0x1_0000 + n * 0x1000 + l;
    ClearNibble(h, n, l);
    SetNibble(h, l);
    var v := h * 0x1_0000 + 0x5000 + l;
    BigEndian4(x);
    BigEndian4(v);
    NibbleBytes(h, n, l);
  }

  lemma ClearNibble(h: nat, n: nat, l: nat)
    requires h < 0x1_0000 && n < 16 && l < 0x1000
    ensures And(h * 0x1_0000 + n * 0x1000 + l, 0xFFFF_0FFF) == h * 0x1_0000 + l
  {
    hide And;
    AndAt16(h, n * 0x1000 + l, 0xFFFF, 0x0FFF);
    Mask16(h);
    Mask12(n * 0x1000 + l);
  }

  lemma Mask16(x: nat)
    ensures And(x, 0xFFFF) == x % 0x1_0000
  {
    hide And, Pow2;
    Powers();
    Field(x, 0, 16, 1, 0x1_0000, 0xFFFF);
  }

  lemma Mask12(x: nat)
    ensures And(x, 0x0FFF) == x % 0x1000
  {
    hide And, Pow2;
    Powers();
    Bits.Add(8, 4);
    Field(x, 0, 12, 1, 0x1000, 0x0FFF);
  }

  lemma Mask30(x: nat)
    ensures And(x, 0x3FFF_FFFF) == x % 0x4000_0000
  {
    hide And, Pow2;
    Powers();
    Bits.Add(24, 6);
    Field(x, 0, 30, 1, 0x4000_0000, 0x3FFF_FFFF);
  }

  lemma SetNibble(h: nat, l: nat)
    requires h < 0x1_0000 && l < 0x1000
    ensures Or(h * 0x1_0000 + l, 0x5000) == h * 0x1_0000 + 0x5000 + l
  {
    hide Or, Pow2, Shl;
    Powers();
    ShlIsTimes(h, 16);
    ShlIsTimes(0, 16);
    OrSplit(h, l, 0, 0x5000, 16);
    Bits.Add(8, 4);
    OrJoin(5, l, 12);
    OrSwap(l, 0x5000);
    OrWithZero(h);
    ShlIsTimes(Or(h, 0), 16);
  }

  lemma OrWithZero(h: nat)
    ensures Or(h, 0) == h
  {
  }

  lemma NibbleBytes(h: nat, n: nat, l: nat)
    requires h < 0x1_0000 && n < 16 && l < 0x1000
    ensures var x, v := h * 0x1_0000 + n * 0x1000 + l, h * 0x1_0000 + 0x5000 + l;
      && v / 0x100_0000 == x / 0x100_0000 && v / 0x1_0000 == x / 0x1_0000 && v % 0x100 == x % 0x100
      && v / 0x100 % 0x100 == 0x50 + x / 0x100 % 0x100 % 16
  {
    NibbleParts(h, n, l);
    NibbleParts(h, 5, l);
  }

  lemma NibbleParts(h: nat, n: nat, l: nat)
    requires h < 0x1_0000 && n < 16 && l < 0x1000
    ensures var x := h * 0x1_0000 + n * 0x1000 + l;
      && x / 0x1_0000 == h && x / 0x100_0000 == h / 0x100 && x % 0x100 == l % 0x100
      && x / 0x100 % 0x100 == n * 0x10 + l / 0x100
  {
    var low := n * 0x1000 + l;
    DivMod(h, low, 0x1_0000);
    DivMod(h / 0x100, h % 0x100 * 0x1_0000 + low, 0x100_0000);
    DivMod(h * 0x100 + n * 0x10 + l / 0x100, l % 0x100, 0x100);
    DivMod(h, n * 0x10 + l / 0x100, 0x100);
  }

  lemma VariantWord(x: Word32)
    ensures var v := Or(And(x, 0x3FFF_FFFF), 0x8000_0000);
      v < 0x1_0000_0000 && BEBytes(v, 4) == [0x80 + BEBytes(x, 4)[0] % 64] + BEBytes(x, 4)[1..]
  {
    hide And, Or, BEBytes;
    var l := x % 0x4000_0000;
    Mask30(x);
    Join31(1, l);
    OrSwap(l, 0x8000_0000);
    VariantWordBytes(x, l);
  }

  lemma VariantWordBytes(x: Word32, l: nat)
    requires l == x % 0x4000_0000
    ensures BEBytes(0x8000_0000 + l, 4) == [0x80 + BEBytes(x, 4)[0] % 64] + BEBytes(x, 4)[1..]
  {
    hide BEBytes, ToByte;
    BigEndian4(x);
    BigEndian4(0x8000_0000 + l);
    VariantBytes(x, l);
  }

  lemma Join31(h: nat, l: nat)
    requires l < 0x8000_0000
    ensures Or(h * 0x8000_0000, l) == h * 0x8000_0000 + l
  {
    hide Or, Pow2;
    Powers();
    Bits.Add(24, 7);
    OrJoin(h, l, 31);
  }

  lemma VariantBytes(x: Word32, l: nat)
    requires l == x % 0x4000_0000
    ensures var v := 0x8000_0000 + l;
      && ToByte(v / 0x100_0000) == 0x80 + ToByte(x / 0x100_0000) % 64
      && ToByte(v / 0x1_0000) == ToByte(x / 0x1_0000) && ToByte(v / 0x100) == ToByte(x / 0x100) && ToByte(v) == ToByte(x)
  {
    hide ToByte;
    ThirtyBits(x / 0x4000_0000, l);
    ThirtyBits(2, l);
    DivMod(x / 0x4000_0000, l / 0x100_0000, 64);
  }

  /** The bytes of a word given by its top two bits and the others. */
  lemma ThirtyBits(q: nat, l: nat)
    requires q < 4 && l < 0x4000_0000
    ensures var x := q * 0x4000_0000 + l;
      && ToByte(x / 0x100_0000) == q * 0x40 + l / 0x100_0000 && ToByte(x / 0x1_0000) == ToByte(l / 0x1_0000)
      && ToByte(x / 0x100) == ToByte(l / 0x100) && ToByte(x) == ToByte(l)
  {
    hide ToByte;
    FourthByte(q, l);
    ThirdByte(q, l);
    LowBytes(q, l);
  }

  lemma FourthByte(q: nat, l: nat)
    requires q < 4 && l < 0x4000_0000
    ensures ToByte((q * 0x4000_0000 + l) / 0x100_0000) == q * 0x40 + l / 0x100_0000
  {
    DivMod(q * 0x40 + l / 0x100_0000, l % 0x100_0000, 0x100_0000);
  }

  lemma ThirdByte(q: nat, l: nat)
    ensures ToByte((q * 0x4000_0000 + l) / 0x1_0000) == ToByte(l / 0x1_0000)
  {
    var b := l / 0x1_0000;
    DivMod(q * 0x4000 + b, l % 0x1_0000, 0x1_0000);
    DivMod(q * 0x40 + b / 0x100, b % 0x100, 0x100);
  }

  lemma LowBytes(q: nat, l: nat)
    ensures ToByte((q * 0x4000_0000 + l) / 0x100) == ToByte(l / 0x100)
    ensures ToByte(q * 0x4000_0000 + l) == ToByte(l)
  {
    var c := l / 0x100;
    DivMod(q * 0x40_0000 + c, l % 0x100, 0x100);
    DivMod(q * 0x4000 + c / 0x100, c % 0x100, 0x100);
  }

  method WriteId(mem: array<byte>, v3: nat, st: State)
    requires v3 + 16 <= mem.Length
    modifies mem
    ensures mem[v3..v3 + 16] == IdOf(st)
    ensures forall i :: 0 <= i < mem.Length && !(v3 <= i < v3 + 16) ==> mem[i] == old(mem[i])
  {
    hide And, Or, SwapWord, BEBytes, LEBytes, IdOf;
    SwapWordBytes(st.h3);
    Store(mem, v3 + 12, 4, SwapWord(st.h3));
    ghost var m0 := mem[..];
    SwapWordBytes(st.h0);
    Store(mem, v3, 4, SwapWord(st.h0));
    ghost var m1 := mem[..];
    SameSlice(m0, m1, v3 + 12, v3 + 16);
    VariantWord(st.h2);
    var v2 := Or(And(st.h2, 0x3FFF_FFFF), 0x8000_0000);
    SwapWordBytes(v2);
    Store(mem, v3 + 8, 4, SwapWord(v2));
    ghost var m2 := mem[..];
    SameSlice(m1, m2, v3, v3 + 4);
    SameSlice(m1, m2, v3 + 12, v3 + 16);
    VersionWord(st.h1);
    v2 := Or(And(st.h1, 0xFFFF_0FFF), 0x5000);
    SwapWordBytes(v2);
    Store(mem, v3 + 4, 4, SwapWord(v2));
    SameSlice(m2, mem[..], v3, v3 + 4);
    SameSlice(m2, mem[..], v3 + 8, v3 + 12);
    SameSlice(m2, mem[..], v3 + 12, v3 + 16);
    IdOfWords(st);
    Adjoin(mem[..], v3, v3 + 4, v3 + 8);
    Adjoin(mem[..], v3, v3 + 8, v3 + 12);
    Adjoin(mem[..], v3, v3 + 12, v3 + 16);
  }

  lemma IdOfWords(st: State)
    ensures IdOf(st) == BEBytes(st.h0, 4)
                        + (BEBytes(st.h1, 4)[..2] + [0x50 + BEBytes(st.h1, 4)[2] % 16, BEBytes(st.h1, 4)[3]])
                        + ([0x80 + BEBytes(st.h2, 4)[0] % 64] + BEBytes(st.h2, 4)[1..])
                        + BEBytes(st.h3, 4)
  {
    hide BEBytes;
    var a, b, c, d := BEBytes(st.h0, 4), BEBytes(st.h1, 4), BEBytes(st.h2, 4), BEBytes(st.h3, 4);
    var g := a + b + c + d;
    assert g[..6] == a + b[..2] && g[6] == b[2] && g[7] == b[3] && g[8] == c[0] && g[9..] == c[1..] + d;
  }

  /** The blocks fed are exactly the padded message's, so the digest is SHA-1's. */
  method Digest(f: Compression, mem: array<byte>, v0: nat, v1: nat, v2: nat) returns (st: State)
    requires v0 + 16 <= mem.Length
    requires v2 < 0x8000_0000 && (v2 > 0 ==> v1 + v2 <= mem.Length)
    requires HasData(mem[..])
    ensures st == Sha1(f, Message(mem[..], v0, v1, v2))
  {
    hide Sha1, Message, Leftover, HasData;
    var block := new byte[64];
    var tail;
    ghost var was := mem[..];
    st, tail := FeedWhole(f, mem, v0, v1, v2, block);
    assert mem[..] == was;
    st := FeedLast(f, st, block, tail, v2, Message(was, v0, v1, v2));
    assert mem[..] == was;
  }

  /** A version 5 value is the first sixteen digest bytes of namespace followed by name, with the
      version and variant set, for every name the call takes. */
  method NewV5(f: Compression, mem: array<byte>, v0: nat, v1: nat, v2: nat, v3: nat) returns (code: nat)
    requires v0 + 16 <= mem.Length && v3 + 16 <= mem.Length
    requires HasData(mem[..]) && v2 < 0x8000_0000 && (v2 > 0 ==> v1 + v2 <= mem.Length)
    modifies mem
    ensures code == 0
    ensures mem[v3..v3 + 16] == IdOf(Sha1(f, old(Message(mem[..], v0, v1, v2))))
    ensures forall i :: 0 <= i < mem.Length && !(v3 <= i < v3 + 16) ==> mem[i] == old(mem[i])
  {
    hide Sha1, IdOf, Message;
    var st := Digest(f, mem, v0, v1, v2);
    WriteId(mem, v3, st);
    code := 0;
  }
}
