/** The masked and shifted 64-bit expressions of the version 7 calls, each proved once against
    plain arithmetic. */
module Words {
  import opened Bits
  import opened Bytes
  import opened Stream

  const STEP_MASK: nat := 0xF_FFFF
  const MILLIS_MASK: nat := 0xFFFF_FFFF_FFF0_0000

  function U32(x: nat): (r: nat)
    ensures r < TWO32
  {
    x % TWO32
  }

  function U64(x: nat): (r: nat)
    ensures r < TWO64
  {
    x % TWO64
  }

  // ---- Disjoint halves, and one field of a word, at the positions the core uses --------------------

  lemma Join4(h: nat, l: nat)
    requires l < 0x10
    ensures Or(h * 0x10, l) == h * 0x10 + l
  {
    hide Or, Pow2;
    Powers();
    OrJoin(h, l, 4);
  }

  lemma Join6(h: nat, l: nat)
    requires l < 0x40
    ensures Or(h * 0x40, l) == h * 0x40 + l
  {
    hide Or, Pow2;
    Powers();
    OrJoin(h, l, 6);
  }

  lemma Join7(h: nat, l: nat)
    requires l < 0x80
    ensures Or(h * 0x80, l) == h * 0x80 + l
  {
    hide Or, Pow2;
    Powers();
    OrJoin(h, l, 7);
  }

  lemma Join8(h: nat, l: nat)
    requires l < 0x100
    ensures Or(h * 0x100, l) == h * 0x100 + l
  {
    hide Or, Pow2;
    Powers();
    OrJoin(h, l, 8);
  }

  lemma Join16(h: nat, l: nat)
    requires l < 0x10000
    ensures Or(h * 0x10000, l) == h * 0x10000 + l
  {
    hide Or, Pow2;
    Powers();
    OrJoin(h, l, 16);
  }

  lemma Join20(h: nat, l: nat)
    requires l < 0x100000
    ensures Or(h * 0x100000, l) == h * 0x100000 + l
  {
    hide Or, Pow2;
    Powers();
    OrJoin(h, l, 20);
  }

  lemma Join24(h: nat, l: nat)
    requires l < 0x1000000
    ensures Or(h * 0x1000000, l) == h * 0x1000000 + l
  {
    hide Or, Pow2;
    Powers();
    OrJoin(h, l, 24);
  }

  lemma Join32(h: nat, l: nat)
    requires l < 0x100000000
    ensures Or(h * 0x100000000, l) == h * 0x100000000 + l
  {
    hide Or, Pow2;
    Powers();
    OrJoin(h, l, 32);
  }

  lemma Join40(h: nat, l: nat)
    requires l < 0x10000000000
    ensures Or(h * 0x10000000000, l) == h * 0x10000000000 + l
  {
    hide Or, Pow2;
    Powers();
    OrJoin(h, l, 40);
  }

  lemma Join48(h: nat, l: nat)
    requires l < 0x1000000000000
    ensures Or(h * 0x1000000000000, l) == h * 0x1000000000000 + l
  {
    hide Or, Pow2;
    Powers();
    OrJoin(h, l, 48);
  }

  lemma Join56(h: nat, l: nat)
    requires l < 0x100000000000000
    ensures Or(h * 0x100000000000000, l) == h * 0x100000000000000 + l
  {
    hide Or, Pow2;
    Powers();
    OrJoin(h, l, 56);
  }

  lemma Join2(h: nat, l: nat)
    requires l < 0x4
    ensures Or(h * 0x4, l) == h * 0x4 + l
  {
    hide Or, Pow2;
    Powers();
    OrJoin(h, l, 2);
  }

  lemma Join14(h: nat, l: nat)
    requires l < 0x4000
    ensures Or(h * 0x4000, l) == h * 0x4000 + l
  {
    hide Or, Pow2;
    Powers();
    Add(8, 6);
    OrJoin(h, l, 14);
  }

  lemma Join60(h: nat, l: nat)
    requires l < 0x1000000000000000
    ensures Or(h * 0x1000000000000000, l) == h * 0x1000000000000000 + l
  {
    hide Or, Pow2;
    Powers();
    Add(56, 4);
    OrJoin(h, l, 60);
  }

  lemma Mask4(x: nat)
    ensures And(x, 15) == x % 16
  {
    hide And, Pow2;
    Powers();
    Field(x, 0, 4, 1, 16, 15);
  }

  lemma Mask6(x: nat)
    ensures And(x, 63) == x % 64
  {
    hide And, Pow2;
    Powers();
    Field(x, 0, 6, 1, 64, 63);
  }

  lemma Mask8(x: nat)
    ensures And(x, 0xFF) == x % 0x100
  {
    hide And, Pow2;
    Powers();
    Field(x, 0, 8, 1, 0x100, 0xFF);
  }

  lemma Mask20(x: nat)
    ensures And(x, STEP_MASK) == x % STEPS
  {
    hide And, Pow2;
    Powers();
    Field(x, 0, 20, 1, STEPS, STEP_MASK);
  }

  lemma Mask44At20(x: nat)
    requires x < TWO64
    ensures And(x, MILLIS_MASK) == x / STEPS * STEPS
  {
    hide And, Pow2;
    Powers();
    Field(x, 20, 44, STEPS, 0x1000_0000_0000, MILLIS_MASK);
  }

  lemma Mask6At8(x: nat)
    ensures And(x, 16128) == x / 0x100 % 0x40 * 0x100
  {
    hide And, Pow2;
    Powers();
    Field(x, 8, 6, 0x100, 0x40, 16128);
  }

  lemma Mask8At8(x: nat)
    ensures And(x, 0xFF00) == x / 0x100 % 0x100 * 0x100
  {
    hide And, Pow2;
    Powers();
    Field(x, 8, 8, 0x100, 0x100, 0xFF00);
  }

  lemma Mask8At16(x: nat)
    ensures And(x, 0xFF_0000) == x / 0x1_0000 % 0x100 * 0x1_0000
  {
    hide And, Pow2;
    Powers();
    Field(x, 16, 8, 0x1_0000, 0x100, 0xFF_0000);
  }

  lemma Mask8At24(x: nat)
    ensures And(x, 0xFF00_0000) == x / 0x100_0000 % 0x100 * 0x100_0000
  {
    hide And, Pow2;
    Powers();
    Field(x, 24, 8, 0x100_0000, 0x100, 0xFF00_0000);
  }

  lemma Mask4At2(x: nat)
    ensures And(x, 60) == x / 4 % 16 * 4
  {
    hide And, Pow2;
    Powers();
    Field(x, 2, 4, 4, 16, 60);
  }

  lemma Mask6At2(x: nat)
    ensures And(x, 252) == x / 4 % 64 * 4
  {
    hide And, Pow2;
    Powers();
    Field(x, 2, 6, 4, 64, 252);
  }

  lemma Mask28At4(x: nat)
    ensures And(x, 0xFFFF_FFF0) == x / 16 % 0x1000_0000 * 16
  {
    hide And, Pow2;
    Powers();
    Add(24, 4);
    Field(x, 4, 28, 16, 0x1000_0000, 0xFFFF_FFF0);
  }

  lemma Complement20(x: nat)
    requires x < STEPS
    ensures Xor(x, STEP_MASK) == STEP_MASK - x
  {
    hide Xor, Pow2;
    Powers();
    XorOnes(x, 20);
  }

  /** The two fields of a stream word, and how they join. */
  lemma StreamFields(w: nat)
    requires w < TWO64
    ensures And(w, STEP_MASK) == w % STEPS
    ensures And(w, MILLIS_MASK) == w / STEPS * STEPS
  {
    Mask20(w);
    Mask44At20(w);
  }

  lemma JoinFields(h: nat, l: nat)
    requires l < STEPS
    ensures Or(h * STEPS, l) == h * STEPS + l
  {
    Join20(h, l);
  }

  /** A four-byte load gives back its bytes one by one. */
  lemma LE4(p: byte, q: byte, r: byte, s: byte)
    ensures var x := LE([p, q, r, s]);
      && ToByte(x) == p && ToByte(x / 0x100) == q && ToByte(x / 0x1_0000) == r && ToByte(x / 0x100_0000) == s && x < TWO32
  {
    assert [p, q, r, s][1..] == [q, r, s] && [q, r, s][1..] == [r, s];
    LE2(r, s);
    var y := LE([r, s]);
    assert LE([q, r, s]) == q + 0x100 * y;
    assert LE([p, q, r, s]) == p + 0x100 * (q + 0x100 * y);
    FourDigits(p, q, r, s);
  }

  lemma FourDigits(p: byte, q: byte, r: byte, s: byte)
    ensures var x := p + 0x100 * (q + 0x100 * (r + 0x100 * s as nat));
      && x / 0x100 == q + 0x100 * (r + 0x100 * s as nat)
      && x / 0x1_0000 == r + 0x100 * s as nat
      && x / 0x100_0000 == s
  {
  }

  /** A byte as a signed number, and as the 32-bit word it sign-extends to. */
  function Int8(b: byte): int {
    if b < 0x80 then b else b - 0x100
  }

  function SignExtend(b: byte): nat {
    if b < 0x80 then b else TWO32 - 0x100 + b
  }

  // ---- Little-endian words ------------------------------------------------------------------------

  lemma LE2(p: byte, q: byte)
    ensures LE([p, q]) == p + 0x100 * q
  {
    assert LE([q]) == q;
  }

  lemma LE3(p: byte, q: byte, r: byte)
    ensures LE([p, q, r]) == p + 0x100 * q + 0x1_0000 * r
  {
    assert [p, q, r][1..] == [q, r];
    LE2(q, r);
  }

  lemma LE6(b0: byte, b1: byte, b2: byte, b3: byte, b4: byte, b5: byte)
    ensures LE([b0, b1, b2, b3, b4, b5])
         == b0 + 0x100 * b1 + 0x1_0000 * b2 + 0x100_0000 * b3 + 0x1_0000_0000 * b4 + 0x100_0000_0000 * b5
  {
    assert [b0, b1, b2, b3, b4, b5] == [b0, b1, b2] + [b3, b4, b5];
    LEAfter3([b0, b1, b2], [b3, b4, b5]);
    LE3(b0, b1, b2);
    LE3(b3, b4, b5);
  }

  lemma LEAfter2(s: seq<byte>, t: seq<byte>)
    requires |s| == 2
    ensures LE(s + t) == LE(s) + 0x1_0000 * LE(t) && LE(s) < 0x1_0000
  {
    Powers();
    LEConcat(s, t);
    LEBound(s);
  }

  lemma LEAfter3(s: seq<byte>, t: seq<byte>)
    requires |s| == 3
    ensures LE(s + t) == LE(s) + 0x100_0000 * LE(t)
  {
    Powers();
    LEConcat(s, t);
  }

  lemma LEAfter6(s: seq<byte>, t: seq<byte>)
    requires |s| == 6
    ensures LE(s + t) == LE(s) + 0x1_0000_0000_0000 * LE(t) && LE(s) < 0x1_0000_0000_0000
  {
    Powers();
    LEConcat(s, t);
    LEBound(s);
  }

  lemma BigEndian6(x: nat)
    ensures BEBytes(x, 6) == [ToByte(x / 0x100_0000_0000), ToByte(x / 0x1_0000_0000), ToByte(x / 0x100_0000),
                              ToByte(x / 0x1_0000), ToByte(x / 0x100), ToByte(x)]
  {
    var x3 := x / 0x100_0000;
    BigEndian3(x3);
    BigEndian3(x);
    BEPrefix(x);
    assert x3 / 0x100 == x / 0x1_0000_0000 && x3 / 0x1_0000 == x / 0x100_0000_0000;
  }

  lemma BigEndian3(x: nat)
    ensures BEBytes(x, 3) == [ToByte(x / 0x1_0000), ToByte(x / 0x100), ToByte(x)]
  {
    assert BEBytes(x / 0x1_0000, 1) == [ToByte(x / 0x1_0000)];
    assert x / 0x100 / 0x100 == x / 0x1_0000;
    assert BEBytes(x / 0x100, 2) == [ToByte(x / 0x1_0000), ToByte(x / 0x100)];
  }

  lemma BEPrefix(x: nat)
    ensures BEBytes(x, 6) == BEBytes(x / 0x100_0000, 3) + BEBytes(x, 3)
  {
    var a := x / 0x100;
    var b := a / 0x100;
    assert b / 0x100 == x / 0x100_0000;
    assert BEBytes(b, 4) == BEBytes(b / 0x100, 3) + [ToByte(b)];
    assert BEBytes(a, 5) == BEBytes(b, 4) + [ToByte(a)];
    assert BEBytes(x, 6) == BEBytes(a, 5) + [ToByte(x)];
    assert BEBytes(x, 3) == [ToByte(b), ToByte(a), ToByte(x)] by { BigEndian3(x); }
  }

  // ---- Single calls ---------------------------------------------------------------------------------

  /** Bytes 1 to 3 of a draw as the 19-bit seed of a single call. */
  lemma SeedBits(p: byte, q: byte, r: byte)
    ensures Or(Or(q * 0x8_0000_0000, p * 0x800_0000), r * 0x800_0000_0000) / TWO32 == LE([p, q, r]) / 32
  {
    hide And, Or;
    Join35(q, p * 0x800_0000);
    Join43(r, q * 0x8_0000_0000 + p * 0x800_0000);
    LE3(p, q, r);
  }

  lemma Join35(h: nat, l: nat)
    requires l < 0x8_0000_0000
    ensures Or(h * 0x8_0000_0000, l) == h * 0x8_0000_0000 + l
  {
    Powers();
    Add(32, 3);
    OrJoin(h, l, 35);
  }

  lemma Join43(h: nat, l: nat)
    requires l < 0x800_0000_0000
    ensures Or(l, h * 0x800_0000_0000) == h * 0x800_0000_0000 + l
  {
    Powers();
    Add(40, 3);
    OrJoin(h, l, 43);
    OrSwap(l, h * 0x800_0000_0000);
  }

  // ---- Batch items ----------------------------------------------------------------------------------

  /** The batch's byte-swapped timestamp, shifted down by 16: read as a little-endian word it
      holds the six big-endian bytes of the millisecond. */
  function Swapped(v0: nat): nat {
    Or(Or(Or(U64(v0 * 0x100_0000_0000_0000), And(v0, 0xFF00) * 0x100_0000_0000),
          Or(And(v0, 0xFF_0000) * 0x100_0000, And(v0, 0xFF00_0000) * 0x100)),
       Or(And(v0 / 0x100, 0xFF00_0000), And(v0 / 0x100_0000, 0xFF_0000))) / 0x1_0000
  }

  lemma SwappedMillis(v0: nat)
    requires v0 < 0x1_0000_0000_0000
    ensures Swapped(v0) == LE(BEBytes(v0, 6))
  {
    hide And, Or, BEBytes, LE, U64;
    Mask8At8(v0);
    Mask8At16(v0);
    Mask8At24(v0);
    Mask8At24(v0 / 0x100);
    Mask8At16(v0 / 0x100_0000);
    TopByte(v0);
    ShiftTwice(v0);
    SwapJoin(ToByte(v0), ToByte(v0 / 0x100), ToByte(v0 / 0x1_0000),
             ToByte(v0 / 0x100_0000), ToByte(v0 / 0x1_0000_0000), ToByte(v0 / 0x100_0000_0000));
    BigEndian6(v0);
    LE6(ToByte(v0 / 0x100_0000_0000), ToByte(v0 / 0x1_0000_0000), ToByte(v0 / 0x100_0000),
        ToByte(v0 / 0x1_0000), ToByte(v0 / 0x100), ToByte(v0));
  }

  lemma ShiftTwice(x: nat)
    ensures x / 0x100 / 0x100_0000 == x / 0x1_0000_0000 && x / 0x100_0000 / 0x1_0000 == x / 0x100_0000_0000
  {
  }

  lemma TopByte(x: nat)
    ensures U64(x * 0x100_0000_0000_0000) == ToByte(x) * 0x100_0000_0000_0000
  {
  }

  lemma SwapJoin(b0: byte, b1: byte, b2: byte, b3: byte, b4: byte, b5: byte)
    ensures Or(Or(Or(b0 * 0x100_0000_0000_0000, b1 * 0x1_0000_0000_0000), Or(b2 * 0x100_0000_0000, b3 * 0x1_0000_0000)),
               Or(b4 * 0x100_0000, b5 * 0x1_0000))
         == 0x1_0000 * (b5 + 0x100 * b4 + 0x1_0000 * b3 + 0x100_0000 * b2 + 0x1_0000_0000 * b1 + 0x100_0000_0000 * b0)
  {
    hide And, Or;
    Join56(b0, b1 * 0x1_0000_0000_0000);
    Join40(b2, b3 * 0x1_0000_0000);
    Join24(b4, b5 * 0x1_0000);
    Join48(b0 * 0x100 + b1, b2 * 0x100_0000_0000 + b3 * 0x1_0000_0000);
    Join32(b0 * 0x100_0000 + b1 * 0x1_0000 + b2 * 0x100 + b3, b4 * 0x100_0000 + b5 * 0x1_0000);
  }

  /** The first eight bytes of a batch item: timestamp, version and the counter's top 12 bits. */
  function FirstHalf(v14: nat, v4: nat): nat {
    Or(v14, Or(Or(And(v4 / 0x40_0000, 15), 112) * 0x1_0000_0000_0000, U64(v4 / 0x4000 * 0x100_0000_0000_0000)))
  }

  lemma FirstHalfBytes(v14: nat, ms: nat, v4: nat)
    requires v14 == LE(BEBytes(ms, 6))
    ensures FirstHalf(v14, v4) == LE(BEBytes(ms, 6) + [0x70 + v4 / 0x40_0000 % 16, ToByte(v4 / 0x4000)])
  {
    hide And, Or;
    var p: byte, q: byte := 0x70 + v4 / 0x40_0000 % 16, ToByte(v4 / 0x4000);
    Mask4(v4 / 0x40_0000);
    Join4(7, v4 / 0x40_0000 % 16);
    OrSwap(v4 / 0x40_0000 % 16, 112);
    TopByte(v4 / 0x4000);
    Join56(q, p * 0x1_0000_0000_0000);
    OrSwap(p * 0x1_0000_0000_0000, q * 0x100_0000_0000_0000);
    LEAfter6(BEBytes(ms, 6), [p, q]);
    Join48(q * 0x100 + p, v14);
    OrSwap(v14, (q * 0x100 + p) * 0x1_0000_0000_0000);
    LE2(p, q);
  }

  /** The low 16 bits of the second half: the variant byte and the counter's last byte. */
  function VariantAndLast(v1: nat): nat {
    And(Or(U32(v1 * 0x100), Or(And(v1, 16128), 0x8000) / 0x100), 65471)
  }

  lemma VariantAndLastBytes(c: nat)
    ensures VariantAndLast(c) == LE([0x80 + c / 0x100 % 0x40, ToByte(c)])
  {
    hide And, Or;
    var y := c / 0x100 % 0x40;
    Mask6At8(c);
    Join15(1, y * 0x100);
    var h := c % 0x100_0000;
    DivMod(c / 0x100_0000, h * 0x100, TWO32);
    Join8(h, 0x80 + y);
    MaskGap(h / 0x100, h % 0x100, y);
    DivMod(c / 0x100_0000 * 0x1_0000 + h / 0x100, h % 0x100, 0x100);
    LE2(0x80 + y, ToByte(c));
  }

  lemma Join15(h: nat, l: nat)
    requires l < 0x8000
    ensures Or(l, h * 0x8000) == h * 0x8000 + l
  {
    Powers();
    Add(8, 7);
    OrJoin(h, l, 15);
    OrSwap(l, h * 0x8000);
  }

  /** The mask 0xFFBF drops bit 6, which is clear already. */
  lemma MaskGap(h: nat, l: byte, y: nat)
    requires y < 0x40
    ensures And(h * 0x1_0000 + l * 0x100 + 0x80 + y, 65471) == l * 0x100 + 0x80 + y
  {
    hide And, Or;
    Mask6(y);
    AndAt7(1, y, 1, 63);
    Mask8(l);
    AndAt8(l, 0x80 + y, 0xFF, 0xBF);
    AndAt16(h, l * 0x100 + 0x80 + y, 0, 65471);
    AndZero(h);
    AndOnes();
  }

  lemma AndOnes()
    ensures And(1, 1) == 1
  {
  }

  lemma AndZero(h: nat)
    ensures And(h, 0) == 0
  {
  }

  lemma AndAt7(h: nat, l: nat, h': nat, l': nat)
    requires l < 0x80 && l' < 0x80
    ensures And(h * 0x80 + l, h' * 0x80 + l') == And(h, h') * 0x80 + And(l, l')
  {
    hide And, Pow2, Shl;
    Powers();
    ShlIsTimes(h, 7);
    ShlIsTimes(h', 7);
    ShlIsTimes(And(h, h'), 7);
    AndSplit(h, l, h', l', 7);
  }

  lemma AndAt8(h: nat, l: nat, h': nat, l': nat)
    requires l < 0x100 && l' < 0x100
    ensures And(h * 0x100 + l, h' * 0x100 + l') == And(h, h') * 0x100 + And(l, l')
  {
    hide And, Pow2, Shl;
    Powers();
    ShlIsTimes(h, 8);
    ShlIsTimes(h', 8);
    ShlIsTimes(And(h, h'), 8);
    AndSplit(h, l, h', l', 8);
  }

  lemma AndAt16(h: nat, l: nat, h': nat, l': nat)
    requires l < 0x10000 && l' < 0x10000
    ensures And(h * 0x10000 + l, h' * 0x10000 + l') == And(h, h') * 0x10000 + And(l, l')
  {
    hide And, Pow2, Shl;
    Powers();
    ShlIsTimes(h, 16);
    ShlIsTimes(h', 16);
    ShlIsTimes(And(h, h'), 16);
    AndSplit(h, l, h', l', 16);
  }

  /** The second eight bytes of a batch item, from the word loaded at its six random bytes. */
  lemma SecondHalfBytes(s: seq<byte>, c: nat)
    requires |s| == 8
    ensures Or(U64(LE(s) * 0x1_0000), VariantAndLast(c)) == LE([0x80 + c / 0x100 % 0x40, ToByte(c)] + s[..6])
  {
    hide And, Or;
    VariantAndLastBytes(c);
    assert s == s[..6] + s[6..];
    LEAfter6(s[..6], s[6..]);
    assert U64(LE(s) * 0x1_0000) == LE(s[..6]) * 0x1_0000;
    LEAfter2([0x80 + c / 0x100 % 0x40, ToByte(c)], s[..6]);
    Join16(LE(s[..6]), LE([0x80 + c / 0x100 % 0x40, ToByte(c)]));
  }
}
