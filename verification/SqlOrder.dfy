/** The two in-place conversions between a version 7 value and its SQL Server order, a version 8
    (RFC 9562 sections 5.8 and 6.11), register by register on the sixteen bytes. */
module SqlOrder {
  import opened Bits
  import opened Bytes
  import opened Words
  import Stream
  import V7

  const OK: nat := 0
  const WRONG_VERSION: nat := 5

  type Octets = s: seq<byte> | |s| == 16 witness seq(16, _ => 0)

  // ---- What the two layouts hold --------------------------------------------------------------------

  predicate IsV7(a: Octets) {
    V7.IsV7(a)
  }

  /** The SQL Server layout: an 8 in octet 7 and the RFC variant in octet 8. */
  predicate IsSql(s: Octets) {
    s[7] / 16 == 8 && s[8] / 64 == 2
  }

  /** The octets of a value from the one SQL Server compares first to the one it compares last. */
  function Significance(s: Octets): Octets {
    s[10..] + [s[8], s[9], s[6], s[7]] + ([s[4], s[5]] + s[..4])
  }

  /** The 122 bits that are neither version nor variant, most significant first: the timestamp,
      the 26-bit counter and the trailing random bits. */
  datatype Payload = Payload(millis: seq<byte>, counter: nat, random: seq<byte>)

  function RfcPayload(a: Octets): Payload {
    Payload(a[..6], V7.CounterOf(a), a[10..])
  }

  function SqlPayload(s: Octets): Payload {
    Payload(s[10..], SqlCounter(s[8], s[9], s[6], s[7]), [s[4], s[5]] + s[..4])
  }

  function SqlCounter(b8: nat, b9: nat, b6: nat, b7: nat): nat {
    b8 % 64 * 0x10_0000 + b9 * 0x1000 + b6 * 16 + b7 % 16
  }

  /** `s` is `a` in SQL Server order: the same 122 bits, around the layout's own 8 and variant. */
  predicate Converted(a: Octets, s: Octets) {
    IsV7(a) && IsSql(s) && RfcPayload(a) == SqlPayload(s)
  }

  // ---- The bytes of a conversion --------------------------------------------------------------------

  function SqlOf(a: Octets): Octets {
    var b6: nat, b7: nat, b8: nat, b9: nat := a[6], a[7], a[8], a[9];
    a[12..] + a[10..12]
    + [ToByte(b8 % 16 * 16 + b9 / 16), ToByte(128 + b9 % 16), ToByte(128 + b6 % 16 * 4 + b7 / 64), ToByte(b7 % 64 * 4 + b8 % 64 / 16)]
    + a[..6]
  }

  function RfcOf(s: Octets): Octets {
    var b6: nat, b7: nat, b8: nat, b9: nat := s[6], s[7], s[8], s[9];
    s[10..]
    + [ToByte(112 + b8 / 4 % 16), ToByte(b8 % 4 * 64 + b9 / 4), ToByte(128 + b9 % 4 * 16 + b6 / 16), ToByte(b6 % 16 * 16 + b7 % 16)]
    + s[4..6] + s[..4]
  }

  /** The counter's 26 bits are the same on both sides of a conversion. */
  lemma SqlCounterKept(b6: byte, b7: byte, b8: byte, b9: byte)
    ensures SqlCounter(128 + b6 % 16 * 4 + b7 / 64, b7 % 64 * 4 + b8 % 64 / 16, b8 % 16 * 16 + b9 / 16, 128 + b9 % 16)
         == V7.CounterOfBytes(b6, b7, b8, b9)
  {
    SixBits(b8);
    NoVariant(b6 % 16 * 4 + b7 / 64, b9 % 16);
  }

  lemma RfcCounterKept(b6: byte, b7: byte, b8: byte, b9: byte)
    ensures V7.CounterOfBytes(112 + b8 / 4 % 16, b8 % 4 * 64 + b9 / 4, 128 + b9 % 4 * 16 + b6 / 16, b6 % 16 * 16 + b7 % 16)
         == SqlCounter(b8, b9, b6, b7)
  {
    var h8: nat, h9: nat := b8 / 4 % 16, b9 % 4 * 16 + b6 / 16;
    NoVersion(h8, h9);
    SixBitsHigh(b8);
  }

  lemma SixBits(b: byte)
    ensures b % 64 == b % 64 / 16 * 16 + b % 16
  {
  }

  lemma SixBitsHigh(b: byte)
    ensures b % 64 == b / 4 % 16 * 4 + b % 4
  {
  }

  lemma NoVariant(x: nat, y: nat)
    requires x < 64 && y < 16
    ensures (128 + x) % 64 == x && (128 + y) % 16 == y
  {
  }

  lemma NoVersion(x: nat, y: nat)
    requires x < 16 && y < 64
    ensures (112 + x) % 16 == x && (128 + y) % 64 == y
  {
  }

  lemma SqlOfConverts(a: Octets)
    requires IsV7(a)
    ensures Converted(a, SqlOf(a))
  {
    hide SqlCounter, V7.CounterOfBytes;
    var s := SqlOf(a);
    SqlCounterKept(a[6], a[7], a[8], a[9]);
    SqlMarks(a[6] % 16, a[7], a[9] % 16);
    SqlMiddle(a);
    assert s[10..] == a[..6] && s[..4] == a[12..] && [s[4], s[5]] == a[10..12];
    assert [s[4], s[5]] + s[..4] == a[10..];
  }

  lemma SqlMarks(x: nat, b7: byte, y: nat)
    requires x < 16 && y < 16
    ensures (128 + y) / 16 == 8 && (128 + x * 4 + b7 / 64) / 64 == 2
  {
  }

  lemma SqlMiddle(a: Octets)
    ensures var s := SqlOf(a);
      && s[4] == a[10] && s[5] == a[11]
      && s[6] == a[8] as nat % 16 * 16 + a[9] / 16 && s[7] == 128 + a[9] % 16
      && s[8] == 128 + a[6] % 16 * 4 + a[7] / 64 && s[9] == a[7] as nat % 64 * 4 + a[8] % 64 / 16
  {
  }

  lemma RfcOfConverts(s: Octets)
    requires IsSql(s)
    ensures Converted(RfcOf(s), s)
  {
    hide SqlCounter, V7.CounterOfBytes;
    var a := RfcOf(s);
    RfcCounterKept(s[6], s[7], s[8], s[9]);
    RfcMarks(s[8] / 4 % 16, s[9] % 4, s[6]);
    RfcMiddle(s);
    assert a[..6] == s[10..] && a[10..12] == s[4..6] == [s[4], s[5]] && a[12..] == s[..4];
    assert a[10..] == [s[4], s[5]] + s[..4];
  }

  lemma RfcMarks(x: nat, y: nat, b6: byte)
    requires x < 16 && y < 4
    ensures (112 + x) / 16 == 7 && (128 + y * 16 + b6 / 16) / 64 == 2
  {
  }

  lemma RfcMiddle(s: Octets)
    ensures var a := RfcOf(s);
      && a[6] == 112 + s[8] / 4 % 16 && a[7] == s[8] as nat % 4 * 64 + s[9] / 4
      && a[8] == 128 + s[9] % 4 * 16 + s[6] / 16 && a[9] == s[6] as nat % 16 * 16 + s[7] % 16
  {
  }

  /** A conversion, octet by octet: the timestamp in 10 to 15; the 26-bit counter in 8, 9, 6 and 7,
      most significant first, around the variant and the 8; the random bits in 4, 5 and 0 to 3. */
  lemma SqlOctets(a: Octets)
    requires IsV7(a)
    ensures var s := SqlOf(a);
      && s[10] == a[0] && s[11] == a[1] && s[12] == a[2] && s[13] == a[3] && s[14] == a[4] && s[15] == a[5]
      && s[4] == a[10] && s[5] == a[11] && s[0] == a[12] && s[1] == a[13] && s[2] == a[14] && s[3] == a[15]
      && s[8] / 64 == 2 && s[7] / 16 == 8
      && s[8] as nat % 64 * 0x10_0000 + s[9] as nat * 0x1000 + s[6] as nat * 16 + s[7] as nat % 16
         == a[6] as nat % 16 * 0x40_0000 + a[7] as nat * 0x4000 + a[8] as nat % 64 * 0x100 + a[9] as nat
  {
    SqlOfConverts(a);
    hide IsV7, SqlOf;
    var s := SqlOf(a);
    assert s[10..] == a[..6] && [s[4], s[5]] + s[..4] == a[10..];
    assert s[10..][0] == s[10] && s[10..][1] == s[11] && s[10..][2] == s[12] && s[10..][3] == s[13] && s[10..][4] == s[14] && s[10..][5] == s[15];
    var r := [s[4], s[5]] + s[..4];
    assert r[0] == s[4] && r[1] == s[5] && r[2] == s[0] && r[3] == s[1] && r[4] == s[2] && r[5] == s[3];
    assert a[10..][0] == a[10] && a[10..][1] == a[11] && a[10..][2] == a[12] && a[10..][3] == a[13] && a[10..][4] == a[14] && a[10..][5] == a[15];
  }

  /** A value and its conversion determine each other. */
  lemma ConvertedIsOneToOne(a: Octets, s: Octets, a': Octets, s': Octets)
    requires Converted(a, s) && Converted(a', s')
    ensures a == a' <==> s == s'
  {
    if s == s' {
      SameCounterBytes(a[6], a[7], a[8], a[9], a'[6], a'[7], a'[8], a'[9]);
      assert a == a[..6] + [a[6], a[7], a[8], a[9]] + a[10..];
      assert a' == a'[..6] + [a'[6], a'[7], a'[8], a'[9]] + a'[10..];
    }
    if a == a' {
      SameSqlBytes(s[8], s[9], s[6], s[7], s'[8], s'[9], s'[6], s'[7]);
      var r, r' := [s[4], s[5]] + s[..4], [s'[4], s'[5]] + s'[..4];
      assert s == r[2..] + r[..2] + [s[6], s[7], s[8], s[9]] + s[10..];
      assert s' == r'[2..] + r'[..2] + [s'[6], s'[7], s'[8], s'[9]] + s'[10..];
    }
  }

  lemma SameCounterBytes(a: byte, b: byte, c: byte, d: byte, a': byte, b': byte, c': byte, d': byte)
    requires a / 16 == a' / 16 && c / 64 == c' / 64
    requires V7.CounterOfBytes(a, b, c, d) == V7.CounterOfBytes(a', b', c', d')
    ensures a == a' && b == b' && c == c' && d == d'
  {
  }

  lemma SameSqlBytes(a: byte, b: byte, c: byte, d: byte, a': byte, b': byte, c': byte, d': byte)
    requires a / 64 == a' / 64 && d / 16 == d' / 16
    requires SqlCounter(a, b, c, d) == SqlCounter(a', b', c', d')
    ensures a == a' && b == b' && c == c' && d == d'
  {
  }

  /** The conversions are inverse to each other, so each is a bijection between the version 7
      values and the values of the SQL Server layout. */
  lemma ConversionsAreInverse(a: Octets, s: Octets)
    ensures IsV7(a) ==> IsSql(SqlOf(a)) && RfcOf(SqlOf(a)) == a
    ensures IsSql(s) ==> IsV7(RfcOf(s)) && SqlOf(RfcOf(s)) == s
  {
    if IsV7(a) {
      SqlOfConverts(a);
      RfcOfConverts(SqlOf(a));
      ConvertedIsOneToOne(a, SqlOf(a), RfcOf(SqlOf(a)), SqlOf(a));
    }
    if IsSql(s) {
      RfcOfConverts(s);
      SqlOfConverts(RfcOf(s));
      ConvertedIsOneToOne(RfcOf(s), s, RfcOf(s), SqlOf(RfcOf(s)));
    }
  }

  // ---- Order ----------------------------------------------------------------------------------------

  ghost predicate SqlBelow(s: Octets, t: Octets) {
    Below(Significance(s), Significance(t))
  }

  ghost predicate PayloadBelow(p: Payload, q: Payload)
    requires |p.millis| == |q.millis| && |p.random| == |q.random|
  {
    Below(p.millis, q.millis)
    || (p.millis == q.millis && (p.counter < q.counter || (p.counter == q.counter && Below(p.random, q.random))))
  }

  lemma Below4(s: seq<byte>, t: seq<byte>)
    requires |s| == |t| == 4
    ensures Below(s, t) <==>
      s[0] < t[0] || (s[0] == t[0] && (s[1] < t[1] || (s[1] == t[1] && (s[2] < t[2] || (s[2] == t[2] && s[3] < t[3])))))
  {
    var a, b := [s[0]], [t[0]];
    var x, y := [s[1], s[2], s[3]], [t[1], t[2], t[3]];
    assert s == a + x && t == b + y;
    BelowConcat(a, b, x, y);
    BelowSingle(s[0], t[0]);
    assert x == [s[1]] + [s[2], s[3]] && y == [t[1]] + [t[2], t[3]];
    BelowConcat([s[1]], [t[1]], [s[2], s[3]], [t[2], t[3]]);
    BelowSingle(s[1], t[1]);
    assert [s[2], s[3]] == [s[2]] + [s[3]] && [t[2], t[3]] == [t[2]] + [t[3]];
    BelowConcat([s[2]], [t[2]], [s[3]], [t[3]]);
    BelowSingle(s[2], t[2]);
    BelowSingle(s[3], t[3]);
  }

  lemma RfcOrder(a: Octets, b: Octets)
    requires IsV7(a) && IsV7(b)
    ensures Below(a, b) <==> PayloadBelow(RfcPayload(a), RfcPayload(b))
  {
    assert a == a[..6] + a[6..10] + a[10..] && b == b[..6] + b[6..10] + b[10..];
    BelowConcat(a[..6] + a[6..10], b[..6] + b[6..10], a[10..], b[10..]);
    BelowConcat(a[..6], b[..6], a[6..10], b[6..10]);
    SameHalves(a[..6], a[6..10], b[..6], b[6..10]);
    RfcCounterOrder(a[6..10], b[6..10], V7.CounterOf(a), V7.CounterOf(b));
  }

  lemma SameHalves(a: seq<byte>, x: seq<byte>, b: seq<byte>, y: seq<byte>)
    requires |a| == |b| && |x| == |y|
    ensures a + x == b + y <==> a == b && x == y
  {
    if a + x == b + y {
      SameParts(a, x, b, y);
    }
  }

  lemma RfcCounterOrder(s: seq<byte>, t: seq<byte>, c: nat, d: nat)
    requires |s| == |t| == 4
    requires s[0] / 16 == t[0] / 16 && s[2] / 64 == t[2] / 64
    requires c == V7.CounterOfBytes(s[0], s[1], s[2], s[3])
    requires d == V7.CounterOfBytes(t[0], t[1], t[2], t[3])
    ensures Below(s, t) <==> c < d
    ensures s == t <==> c == d
  {
    Below4(s, t);
    if c == d {
      SameCounterBytes(s[0], s[1], s[2], s[3], t[0], t[1], t[2], t[3]);
    }
  }

  lemma SqlOrderOfPayload(s: Octets, t: Octets)
    requires IsSql(s) && IsSql(t)
    ensures SqlBelow(s, t) <==> PayloadBelow(SqlPayload(s), SqlPayload(t))
  {
    var x, y := [s[8], s[9], s[6], s[7]], [t[8], t[9], t[6], t[7]];
    BelowConcat(s[10..] + x, t[10..] + y, [s[4], s[5]] + s[..4], [t[4], t[5]] + t[..4]);
    BelowConcat(s[10..], t[10..], x, y);
    SameHalves(s[10..], x, t[10..], y);
    SqlCounterOrder(x, y, SqlPayload(s).counter, SqlPayload(t).counter);
  }

  lemma SqlCounterOrder(s: seq<byte>, t: seq<byte>, c: nat, d: nat)
    requires |s| == |t| == 4
    requires s[0] / 64 == t[0] / 64 && s[3] / 16 == t[3] / 16
    requires c == SqlCounter(s[0], s[1], s[2], s[3])
    requires d == SqlCounter(t[0], t[1], t[2], t[3])
    ensures Below(s, t) <==> c < d
    ensures s == t <==> c == d
  {
    Below4(s, t);
    if c == d {
      SameSqlBytes(s[0], s[1], s[2], s[3], t[0], t[1], t[2], t[3]);
    }
  }

  lemma SignificanceIs(s: Octets)
    ensures Significance(s) == [s[10], s[11], s[12], s[13], s[14], s[15], s[8], s[9], s[6], s[7], s[4], s[5], s[0], s[1], s[2], s[3]]
  {
    assert s[10..] == [s[10], s[11], s[12], s[13], s[14], s[15]] && s[..4] == [s[0], s[1], s[2], s[3]];
  }

  /** Comparing two converted values the way SQL Server does gives the same answer as comparing
      the originals left to right. */
  lemma SqlOrderIsRfcOrder(a: Octets, b: Octets)
    requires IsV7(a) && IsV7(b)
    ensures SqlBelow(SqlOf(a), SqlOf(b)) <==> Below(a, b)
    ensures var s, t := SqlOf(a), SqlOf(b);
      var x := [s[10], s[11], s[12], s[13], s[14], s[15], s[8], s[9], s[6], s[7], s[4], s[5], s[0], s[1], s[2], s[3]];
      var y := [t[10], t[11], t[12], t[13], t[14], t[15], t[8], t[9], t[6], t[7], t[4], t[5], t[0], t[1], t[2], t[3]];
      Below(x, y) <==> Below(a, b)
  {
    SignificanceIs(SqlOf(a));
    SignificanceIs(SqlOf(b));
    hide Significance, SqlOf, Below;
    SqlOfConverts(a);
    SqlOfConverts(b);
    SqlOrderOfPayload(SqlOf(a), SqlOf(b));
    RfcOrder(a, b);
  }

  /** Over every run of calls, the values of the stream sort in SQL Server in the order they
      were reserved. */
  lemma {:induction false} StreamIsSqlSorted(w: Stream.Word, cs: seq<V7.Call>, i: nat, j: nat)
    requires V7.AllCallsValid(cs)
    requires i < j < |V7.StreamMints(w, cs)|
    ensures V7.StreamMints(w, cs)[i].Valid() && V7.StreamMints(w, cs)[j].Valid()
    ensures SqlBelow(SqlOf(V7.Encode(V7.StreamMints(w, cs)[i])), SqlOf(V7.Encode(V7.StreamMints(w, cs)[j])))
  {
    hide SqlOf, SqlBelow, V7.Encode, V7.StreamMints, Below;
    V7.StreamIsSorted(w, cs);
    var a, b := V7.StreamMints(w, cs)[i], V7.StreamMints(w, cs)[j];
    assert V7.Ids(V7.StreamMints(w, cs))[i] == V7.Encode(a) && V7.Ids(V7.StreamMints(w, cs))[j] == V7.Encode(b);
    V7.EncodeReads(a);
    V7.EncodeReads(b);
    SqlOrderIsRfcOrder(V7.Encode(a), V7.Encode(b));
  }

  // ---- The conversions on linear memory -----------------------------------------------------------------

  lemma V7Test(b6: byte, b8: byte)
    ensures And(And(b6, 0xFFFF_FFF0), 255) == b6 / 16 * 16
    ensures Int8(b8) > -65 <==> b8 / 64 != 2
  {
    hide And;
    Mask28At4(b6);
    Mask8(b6 / 16 * 16);
  }

  lemma SignBits(b: byte)
    ensures And(SignExtend(b), 63) == b % 64
    ensures And(SignExtend(b), 15) == b % 16
    ensures And(SignExtend(b), 60) == b / 4 % 16 * 4
  {
    hide And, SignExtend;
    Mask6(SignExtend(b));
    Mask4(SignExtend(b));
    Mask4At2(SignExtend(b));
    SignKeepsLow(b);
  }

  lemma SignKeepsLow(b: byte)
    ensures SignExtend(b) % 64 == b % 64 && SignExtend(b) % 16 == b % 16
    ensures SignExtend(b) / 4 % 16 == b / 4 % 16
  {
    if b >= 0x80 {
      PlusManyBytes(0xFF_FFFF, b);
      PlusManyQuads(0xFF_FFFF, b);
    }
  }

  lemma PlusManyBytes(k: nat, b: nat)
    ensures (0x100 * k + b) % 64 == b % 64 && (0x100 * k + b) % 16 == b % 16
  {
    DivMod(4 * k + b / 64, b % 64, 64);
    DivMod(16 * k + b / 16, b % 16, 16);
  }

  lemma PlusManyQuads(k: nat, b: nat)
    ensures (0x100 * k + b) / 4 % 16 == b / 4 % 16
  {
    assert (0x100 * k + b) / 4 == 0x40 * k + b / 4;
  }

  lemma WithVariant(x: nat)
    ensures Or(x % 64, 128) == 128 + x % 64
    ensures Or(x % 16, 128) == 128 + x % 16
    ensures Or(x % 16, 112) == 112 + x % 16
  {
    hide Or;
    Join7(1, x % 64);
    OrSwap(x % 64, 128);
    Join7(1, x % 16);
    OrSwap(x % 16, 128);
    Join4(7, x % 16);
    OrSwap(x % 16, 112);
  }

  // The four bytes around the layout's 8 and variant, as the registers compute them.

  lemma Register9(b7: nat, y: nat)
    requires b7 < 0x100 && y < 64
    ensures ToByte(Or(b7 * 0x4000, y * 0x100) / 0x1000) == b7 % 64 * 4 + y / 16
  {
    hide Or;
    Join14(b7, y * 0x100);
    QuarterUp(b7, y);
    LowQuads(b7, y / 16);
  }

  lemma QuarterUp(b7: nat, y: nat)
    ensures (b7 * 0x4000 + y * 0x100) / 0x1000 == b7 * 4 + y / 16
  {
    DivMod(b7 * 4 + y / 16, y % 16 * 0x100, 0x1000);
  }

  lemma LowQuads(b7: nat, z: nat)
    requires z < 4
    ensures ToByte(b7 * 4 + z) == b7 % 64 * 4 + z
  {
    var q := b7 / 64;
    DivMod(q, b7 % 64 * 4 + z, 0x100);
  }

  lemma Register6(b8: byte, b9: byte)
    ensures ToByte(Or(b8 % 64 * 0x100, b9) / 16) == b8 as nat % 16 * 16 + b9 / 16
  {
    hide Or;
    var y: nat := b8 % 64;
    Join8(y, b9);
    NibbleUp(y, b9);
    SixBits(b8);
  }

  lemma NibbleUp(y: nat, b9: nat)
    ensures (y * 0x100 + b9) / 16 == y * 16 + b9 / 16
  {
  }

  lemma Register7(b9: byte)
    ensures ToByte(Or(And(b9, 15), 128)) == 128 + b9 % 16
  {
    hide And, Or;
    Mask4(b9);
    WithVariant(b9);
  }

  lemma Register8(x: nat, b7: nat)
    requires x < 16 && b7 < 0x100
    ensures ToByte(Or(Or(b7 * 0x4000, x * 0x40_0000) / 0x10_0000, 128)) == 128 + x * 4 + b7 / 64
  {
    hide Or, ToByte;
    Join22(x, b7 * 0x4000);
    DivMod(x * 4 + b7 / 64, b7 % 64 * 0x4000, 0x10_0000);
    SmallVariant(x * 4 + b7 / 64);
  }

  lemma SmallVariant(z: nat)
    requires z < 64
    ensures ToByte(Or(z, 128)) == 128 + z
  {
    hide Or;
    WithVariant(z);
  }

  lemma Join22(h: nat, l: nat)
    requires l < 0x40_0000
    ensures Or(l, h * 0x40_0000) == h * 0x40_0000 + l
  {
    hide Or, Pow2;
    Powers();
    Add(16, 6);
    OrJoin(h, l, 22);
    OrSwap(l, h * 0x40_0000);
  }

  /** The timestamp gathered in one register. */
  function TimeRegister(b1: nat, b2: nat, b3: nat, b4: nat, b5: nat): nat {
    Or(Or(Or(Or(b5, b4 * 0x100), b3 * 0x1_0000), b2 * 0x100_0000), b1 * 0x1_0000_0000)
  }

  lemma SqlTime(b0: byte, b1: byte, b2: byte, b3: byte, b4: byte, b5: byte)
    ensures var v4 := TimeRegister(b1, b2, b3, b4, b5);
      ToByte(v4 / 0x1_0000_0000) == b1 && ToByte(Or(v4, b0 as nat * 0x100_0000_0000) / 0x100_0000_0000) == b0
  {
    hide Or;
    var x1: nat, x2: nat, x3: nat, x4: nat, x5: nat, x0: nat := b1, b2, b3, b4, b5, b0;
    var v := x5;
    Join8(x4, v);
    OrSwap(v, x4 * 0x100);
    v := x4 * 0x100 + v;
    Join16(x3, v);
    OrSwap(v, x3 * 0x1_0000);
    v := x3 * 0x1_0000 + v;
    Join24(x2, v);
    OrSwap(v, x2 * 0x100_0000);
    v := x2 * 0x100_0000 + v;
    Join32(x1, v);
    OrSwap(v, x1 * 0x1_0000_0000);
    v := x1 * 0x1_0000_0000 + v;
    Join40(x0, v);
    OrSwap(v, x0 * 0x100_0000_0000);
  }

  /** The two random bytes that stay in the middle, as one 16-bit store. */
  function RandomRegister(b10: nat, b11: nat): nat {
    var v4 := Or(b10 * 0x1_0000, b11 * 0x100_0000);
    var v5 := And(v4, 0xFF_0000);
    Or(Or(v5 * 0x100_0000, And(v4, 0xFF00_0000) * 0x100) / TWO32 * 0x100, v5 / 0x1_0000)
  }

  lemma SqlRandom(b10: byte, b11: byte)
    ensures LEBytes(RandomRegister(b10, b11), 2) == [b10, b11]
  {
    hide RandomRegister, LEBytes;
    RandomRegisterIs(b10, b11);
    DivMod(b10, b11 as nat * 0x100 + b10, 0x1_0000);
    LowTwo((b10 as nat * 0x100 + b11) * 0x100 + b10, b10, b11);
  }

  lemma RandomRegisterIs(p: nat, q: nat)
    requires p < 0x100 && q < 0x100
    ensures RandomRegister(p, q) == (p * 0x100 + q) * 0x100 + p
  {
    hide And, Or;
    Join24(q, p * 0x1_0000);
    OrSwap(p * 0x1_0000, q * 0x100_0000);
    TwoFields(p, q);
    Join40(p, q * 0x1_0000_0000);
    TopHalf(p, q);
    Join8(p * 0x100 + q, p);
  }

  lemma TopHalf(p: nat, q: nat)
    ensures (p * 0x100_0000_0000 + q * 0x1_0000_0000) / TWO32 == p * 0x100 + q
    ensures p * 0x1_0000 / 0x1_0000 == p
  {
  }

  lemma TwoFields(p: byte, q: byte)
    ensures And(q as nat * 0x100_0000 + p as nat * 0x1_0000, 0xFF_0000) == p as nat * 0x1_0000
    ensures And(q as nat * 0x100_0000 + p as nat * 0x1_0000, 0xFF00_0000) == q as nat * 0x100_0000
  {
    hide And;
    var v4 := q as nat * 0x100_0000 + p as nat * 0x1_0000;
    Mask8At16(v4);
    Mask8At24(v4);
    assert v4 / 0x1_0000 == q as nat * 0x100 + p;
    assert v4 / 0x100_0000 == q as nat;
  }

  lemma LowTwo(x: nat, p: byte, q: byte)
    requires x % 0x1_0000 == q as nat * 0x100 + p
    ensures LEBytes(x, 2) == [p, q]
  {
    var h := x / 0x1_0000;
    DivMod(h * 0x100 + q, p, 0x100);
    DivMod(h, q, 0x100);
    assert LEBytes(x / 0x100, 1) == [ToByte(x / 0x100)];
  }

  /** A conversion's result given by its pieces. */
  lemma SqlOfPieces(a: Octets, s: Octets)
    requires s[..4] == a[12..] && s[4..6] == [a[10], a[11]] && s[10..] == a[..6]
    requires s[6] == a[8] as nat % 16 * 16 + a[9] / 16 && s[7] == 128 + a[9] % 16
    requires s[8] == 128 + a[6] % 16 * 4 + a[7] / 64 && s[9] == a[7] as nat % 64 * 4 + a[8] % 64 / 16
    ensures s == SqlOf(a)
  {
    var t := SqlOf(a);
    SqlMiddle(a);
    assert t[..4] == a[12..] && t[10..] == a[..6];
    hide SqlOf;
    assert s[4] == s[4..6][0] && s[5] == s[4..6][1];
    assert s == s[..4] + [s[4], s[5], s[6], s[7], s[8], s[9]] + s[10..];
    assert t == t[..4] + [t[4], t[5], t[6], t[7], t[8], t[9]] + t[10..];
  }

  /** The timestamp's last four bytes move to the end and the last four random bytes to the start. */
  method SwapEnds(mem: array<byte>, v0: nat) returns (v4: byte, v5: byte, v6: byte, v7: byte, v8: byte, v9: byte)
    requires v0 + 16 <= mem.Length
    modifies mem
    ensures [v8, v9, v7, v6, v5, v4] == old(mem[v0..v0 + 6])
    ensures mem[v0..v0 + 4] == old(mem[v0 + 12..v0 + 16]) && mem[v0 + 12..v0 + 16] == old(mem[v0 + 2..v0 + 6])
    ensures forall i :: 0 <= i < mem.Length && !(v0 <= i < v0 + 4) && !(v0 + 12 <= i < v0 + 16) ==> mem[i] == old(mem[i])
  {
    hide LE, LEBytes;
    ghost var last := mem[v0 + 12..v0 + 16];
    StoreThenRead(last);
    var v1 := Load(mem, v0 + 12, 4);
    v4 := mem[v0 + 5];
    mem[v0 + 15] := v4;
    v5 := mem[v0 + 4];
    mem[v0 + 14] := v5;
    v6 := mem[v0 + 3];
    mem[v0 + 13] := v6;
    v7 := mem[v0 + 2];
    mem[v0 + 12] := v7;
    v8, v9 := mem[v0], mem[v0 + 1];
    Store(mem, v0, 4, v1);
  }

  /** The counter's four bytes, spread in place around the layout's 8 and variant. */
  method SpreadCounter(mem: array<byte>, v0: nat, t2: nat, v3: nat)
    requires v0 + 16 <= mem.Length
    requires t2 == SignExtend(mem[v0 + 8]) && v3 == mem[v0 + 6]
    modifies mem
    ensures var b6: nat, b7: nat, b8: nat, b9: nat := old(mem[v0 + 6]), old(mem[v0 + 7]), old(mem[v0 + 8]), old(mem[v0 + 9]);
      && mem[v0 + 6] == b8 % 16 * 16 + b9 / 16 && mem[v0 + 7] == 128 + b9 % 16
      && mem[v0 + 8] == 128 + b6 % 16 * 4 + b7 / 64 && mem[v0 + 9] == b7 % 64 * 4 + b8 % 64 / 16
    ensures forall i :: 0 <= i < mem.Length && !(v0 + 6 <= i < v0 + 10) ==> mem[i] == old(mem[i])
  {
    hide And, Or, SignExtend, ToByte;
    ghost var b6: nat, b7: nat, b8: nat, b9: nat := mem[v0 + 6], mem[v0 + 7], mem[v0 + 8], mem[v0 + 9];
    SignBits(b8);
    Mask4(b6);
    var v1: nat := mem[v0 + 7];
    var v10: nat := mem[v0 + 9];
    Register7(v10);
    mem[v0 + 7] := ToByte(Or(And(v10, 15), 128));
    v1 := v1 * 0x4000;
    var v2 := And(t2, 63) * 0x100;
    Register9(b7, b8 % 64);
    mem[v0 + 9] := ToByte(Or(v1, v2) / 0x1000);
    Register6(b8, b9);
    mem[v0 + 6] := ToByte(Or(v2, v10) / 16);
    Register8(b6 % 16, b7);
    mem[v0 + 8] := ToByte(Or(Or(v1, And(v3, 15) * 0x40_0000) / 0x10_0000, 128));
  }

  /** The timestamp's first two bytes move to octets 10 and 11, whose random bytes move to 4 and 5. */
  method SwapMiddle(mem: array<byte>, v0: nat, v4: byte, v5: byte, v6: byte, v7: byte, v8: byte, v9: byte)
    requires v0 + 16 <= mem.Length
    modifies mem
    ensures mem[v0 + 10] == v8 && mem[v0 + 11] == v9
    ensures mem[v0 + 4] == old(mem[v0 + 10]) && mem[v0 + 5] == old(mem[v0 + 11])
    ensures forall i :: 0 <= i < mem.Length && !(v0 + 4 <= i < v0 + 6) && !(v0 + 10 <= i < v0 + 12) ==> mem[i] == old(mem[i])
  {
    hide TimeRegister, RandomRegister, ToByte, Or, LEBytes;
    var v11: byte := mem[v0 + 11];
    SqlTime(v8, v9, v7, v6, v5, v4);
    var v := TimeRegister(v9, v7, v6, v5, v4);
    mem[v0 + 11] := ToByte(v / 0x1_0000_0000);
    var w5: byte := mem[v0 + 10];
    mem[v0 + 10] := ToByte(Or(v, v8 as nat * 0x100_0000_0000) / 0x100_0000_0000);
    SqlRandom(w5, v11);
    Store(mem, v0 + 4, 2, RandomRegister(w5, v11));
    assert mem[v0 + 4] == mem[v0 + 4..v0 + 6][0] && mem[v0 + 5] == mem[v0 + 4..v0 + 6][1];
  }

  method ToSqlOrder(mem: array<byte>, v0: nat) returns (code: nat)
    requires v0 + 16 <= mem.Length
    modifies mem
    ensures code == if old(mem[v0 + 6]) / 16 == 7 && old(mem[v0 + 8]) / 64 == 2 then 0 else 5
    ensures code == if old(IsV7(mem[v0..v0 + 16])) then OK else WRONG_VERSION
    ensures code == OK ==> mem[v0..v0 + 16] == SqlOf(old(mem[v0..v0 + 16]))
    ensures code != OK ==> mem[..] == old(mem[..])
    ensures forall i :: 0 <= i < mem.Length && !(v0 <= i < v0 + 16) ==> mem[i] == old(mem[i])
  {
    hide And, SignExtend, SqlOf, Int8;
    ghost var a: Octets := mem[v0..v0 + 16];
    var t0 := mem[v0 + 8];
    V7Test(mem[v0 + 6], t0);
    if Int8(t0) > -65 {
      return WRONG_VERSION;
    }
    var v2: nat := SignExtend(t0);
    var v3: nat := mem[v0 + 6];
    if And(And(v3, 0xFFFF_FFF0), 255) != 112 {
      return WRONG_VERSION;
    }
    var v4, v5, v6, v7, v8, v9 := SwapEnds(mem, v0);
    assert [v8, v9, v7, v6, v5, v4] == a[..6];
    SpreadCounter(mem, v0, v2, v3);
    SwapMiddle(mem, v0, v4, v5, v6, v7, v8, v9);
    ghost var s: Octets := mem[v0..v0 + 16];
    assert s[..4] == mem[v0..v0 + 4] && s[12..] == mem[v0 + 12..v0 + 16] == a[2..6];
    assert s[10..] == [s[10], s[11]] + s[12..];
    SqlOfPieces(a, s);
    code := OK;
  }

  /** The way back, at the ends: the timestamp's bytes return to the start and the random bytes
      to the end. */
  method SwapEndsBack(mem: array<byte>, v0: nat) returns (v4: nat, v6: byte, v7: byte)
    requires v0 + 16 <= mem.Length
    modifies mem
    ensures v4 == LE(old(mem[v0..v0 + 4])) && v4 < TWO32
    ensures v6 == old(mem[v0 + 5]) && v7 == old(mem[v0 + 4])
    ensures mem[v0] == old(mem[v0 + 10]) && mem[v0 + 1] == old(mem[v0 + 11]) && mem[v0 + 2] == old(mem[v0 + 12])
    ensures mem[v0 + 3] == old(mem[v0 + 13]) && mem[v0 + 4] == old(mem[v0 + 14]) && mem[v0 + 5] == old(mem[v0 + 15])
    ensures mem[v0 + 10] == old(mem[v0 + 4]) && mem[v0 + 11] == old(mem[v0 + 5]) && mem[v0 + 12] == old(mem[v0])
    ensures mem[v0 + 13] == old(mem[v0 + 1]) && mem[v0 + 14] == old(mem[v0 + 2]) && mem[v0 + 15] == old(mem[v0 + 3])
    ensures forall i :: 0 <= i < mem.Length && !(v0 <= i < v0 + 6) && !(v0 + 10 <= i < v0 + 16) ==> mem[i] == old(mem[i])
  {
    hide LE, LEBytes, ToByte;
    ghost var ends, mids := mem[v0 + 12..v0 + 16], mem[v0 + 10..v0 + 12];
    StoreThenRead(ends);
    StoreThenRead(mids);
    LE4(mem[v0], mem[v0 + 1], mem[v0 + 2], mem[v0 + 3]);
    assert mem[v0..v0 + 4] == [mem[v0], mem[v0 + 1], mem[v0 + 2], mem[v0 + 3]];
    var v1 := Load(mem, v0 + 12, 4);
    v4 := Load(mem, v0, 4);
    mem[v0 + 12] := ToByte(v4);
    var v5 := Load(mem, v0 + 10, 2);
    v6 := mem[v0 + 5];
    mem[v0 + 11] := v6;
    v7 := mem[v0 + 4];
    mem[v0 + 10] := v7;
    Store(mem, v0 + 2, 4, v1);
    Store(mem, v0, 2, v5);
    assert mem[v0] == mem[v0..v0 + 2][0] && mem[v0 + 1] == mem[v0..v0 + 2][1];
    assert mem[v0 + 2..v0 + 6] == ends;
    assert mem[v0 + 2] == ends[0] && mem[v0 + 3] == ends[1] && mem[v0 + 4] == ends[2] && mem[v0 + 5] == ends[3];
    StoreRandom(mem, v0, v4);
  }

  /** The last three of the random bytes, out of the word they were loaded in. */
  method StoreRandom(mem: array<byte>, v0: nat, v4: nat)
    requires v0 + 16 <= mem.Length && v4 < TWO32
    modifies mem
    ensures mem[v0 + 13] == ToByte(v4 / 0x100) && mem[v0 + 14] == ToByte(v4 / 0x1_0000) && mem[v0 + 15] == ToByte(v4 / 0x100_0000)
    ensures forall i :: 0 <= i < mem.Length && !(v0 + 13 <= i < v0 + 16) ==> mem[i] == old(mem[i])
  {
    hide ToByte;
    mem[v0 + 14] := ToByte(v4 / 0x1_0000);
    mem[v0 + 13] := ToByte(v4 / 0x100);
    TopByteOf(v4);
    var v10 := v4 * TWO32 / 0x100_0000_0000_0000;
    mem[v0 + 15] := ToByte(v10);
  }

  lemma TopByteOf(x: nat)
    requires x < TWO32
    ensures x * TWO32 / 0x100_0000_0000_0000 == x / 0x100_0000
  {
  }

  /** The register that gathers octets 7 and 8: only its top sixteen bits matter, the rest are
      timestamp bytes. */
  function GatherRegister(v2: nat, b9: nat, v4: nat, v6: nat, v7: nat): nat {
    Or(Or(v2 * 0x1_0000_0000_0000, TimestampBytes(v4, v6, v7)), U64(b9 * 0x1000_0000_0000_0000))
  }

  function TimestampBytes(v4: nat, v6: nat, v7: nat): nat {
    var v := Or(Or(v7 * 0x1_0000, v6 * 0x100_0000), v4 * TWO32);
    Or(Or(And(v, 0xFF_0000) * 0x100_0000, And(v, 0xFF00_0000) * 0x100),
       Or(Or(And(v4 * 0x100_0000, 0xFF00_0000), And(v4 * 0x100, 0xFF_0000)),
          Or(And(v4 / 0x100, 0xFF00), v4 * TWO32 / 0x100_0000_0000_0000)))
  }

  lemma OrBelow48(x: nat, y: nat)
    requires x < 0x1_0000_0000_0000 && y < 0x1_0000_0000_0000
    ensures Or(x, y) < 0x1_0000_0000_0000
  {
    hide Or, Pow2;
    Powers();
    OrBelow(x, y, 48);
  }

  lemma TimestampBytesFit(v4: nat, v6: nat, v7: nat)
    requires v4 < TWO32
    ensures TimestampBytes(v4, v6, v7) < 0x1_0000_0000_0000
  {
    hide And, Or;
    var v := Or(Or(v7 * 0x1_0000, v6 * 0x100_0000), v4 * TWO32);
    Mask8At16(v);
    Mask8At24(v);
    Mask8At24(v4 * 0x100_0000);
    Mask8At16(v4 * 0x100);
    Mask8At8(v4 / 0x100);
    TopByteOf(v4);
    var x, y := And(v, 0xFF_0000) * 0x100_0000, And(v, 0xFF00_0000) * 0x100;
    var p, q, r, t := And(v4 * 0x100_0000, 0xFF00_0000), And(v4 * 0x100, 0xFF_0000), And(v4 / 0x100, 0xFF00), v4 / 0x100_0000;
    OrBelow48(x, y);
    OrBelow48(p, q);
    OrBelow48(r, t);
    OrBelow48(Or(p, q), Or(r, t));
    OrBelow48(Or(x, y), Or(Or(p, q), Or(r, t)));
  }

  lemma GatherTop(v2: nat, b9: nat, v4: nat, v6: nat, v7: nat)
    requires v2 < 0x1000 && v4 < TWO32
    ensures var w := GatherRegister(v2, b9, v4, v6, v7);
      w / 0x4000_0000_0000_0000 == b9 % 16 / 4 && w / 0x100_0000_0000_0000 == b9 % 16 * 16 + v2 / 0x100
  {
    hide Or, TimestampBytes;
    var low := TimestampBytes(v4, v6, v7);
    TimestampBytesFit(v4, v6, v7);
    Join48(v2, low);
    var x := v2 * 0x1_0000_0000_0000 + low;
    Join60(b9 % 16, x);
    OrSwap(x, b9 % 16 * 0x1000_0000_0000_0000);
    FourTop(b9);
    TopBits(b9 % 16, v2, low);
  }

  lemma FourTop(b9: nat)
    ensures U64(b9 * 0x1000_0000_0000_0000) == b9 % 16 * 0x1000_0000_0000_0000
  {
    DivMod(b9 / 16, b9 % 16 * 0x1000_0000_0000_0000, TWO64);
  }

  lemma TopBits(h: nat, v2: nat, low: nat)
    requires h < 16 && v2 < 0x1000 && low < 0x1_0000_0000_0000
    ensures var w := h * 0x1000_0000_0000_0000 + (v2 * 0x1_0000_0000_0000 + low);
      w / 0x4000_0000_0000_0000 == h / 4 && w / 0x100_0000_0000_0000 == h * 16 + v2 / 0x100
  {
    var w := h * 0x1000_0000_0000_0000 + (v2 * 0x1_0000_0000_0000 + low);
    assert w / 0x1_0000_0000_0000 == h * 0x1000 + v2;
    assert w / 0x1_0000_0000_0000 / 0x100 == w / 0x100_0000_0000_0000;
    assert w / 0x1_0000_0000_0000 / 0x4000 == w / 0x4000_0000_0000_0000;
  }

  lemma BackRegister9(b6: nat, b7: byte)
    ensures Or(b6 * 16, b7 % 16) == b6 * 16 + b7 % 16
    ensures ToByte(b6 * 16 + b7 % 16) == b6 % 16 * 16 + b7 % 16
  {
    hide Or;
    Join4(b6, b7 % 16);
    DivMod(b6 / 16, b6 % 16 * 16 + b7 % 16, 0x100);
  }

  lemma BackRegister6(b8: byte)
    ensures ToByte(Or(b8 / 4 % 16 * 4 / 4, 112)) == 112 + b8 / 4 % 16
  {
    hide Or;
    WithVariant(b8 / 4);
  }

  lemma BackRegister7(b8: byte, b9: nat)
    requires b9 < 0x100
    ensures ToByte(Or(b9 % 16 / 4, And(Or(b9, U32(SignExtend(b8) * 0x100)) / 4, 252))) == b8 % 4 * 64 + b9 / 4
  {
    hide And, Or, SignExtend;
    var h := SignExtend(b8) % 0x100_0000;
    SignWrap(SignExtend(b8));
    Join8(h, b9);
    OrSwap(b9, h * 0x100);
    var x := (h * 0x100 + b9) / 4;
    Mask6At2(x);
    MiddleBits(h, b9);
    SignQuad(b8);
    Join2(x / 4 % 64, b9 % 16 / 4);
    OrSwap(b9 % 16 / 4, x / 4 % 64 * 4);
    Quads(b9);
  }

  lemma Quads(x: nat)
    ensures x / 4 == x / 16 * 4 + x % 16 / 4
  {
  }

  lemma SignWrap(x: nat)
    ensures U32(x * 0x100) == x % 0x100_0000 * 0x100
  {
  }

  lemma SignQuad(b8: byte)
    ensures SignExtend(b8) % 0x100_0000 % 4 == b8 % 4
  {
    assert SignExtend(b8) % 0x100_0000 == if b8 < 0x80 then b8 else 0xFF_FF00 + b8;
  }

  lemma MiddleBits(h: nat, b9: nat)
    requires b9 < 0x100
    ensures (h * 0x100 + b9) / 4 / 4 % 64 == h % 4 * 16 + b9 / 16
  {
    assert (h * 0x100 + b9) / 4 / 4 == h * 16 + b9 / 16;
    assert h * 16 + b9 / 16 == 64 * (h / 4) + (h % 4 * 16 + b9 / 16);
  }

  lemma BackRegister8(h: nat, v2: nat)
    requires h < 16 && v2 < 0x1000
    ensures ToByte(Or(And(U32(h * 16 + v2 / 0x100), 63), 128)) == 128 + h % 4 * 16 + v2 / 0x100
  {
    hide And, Or;
    var x := v2 / 0x100;
    Mask6(h * 16 + x);
    WithVariant(h * 16 + x);
    QuadUp(h, x);
  }

  lemma QuadUp(h: nat, x: nat)
    requires x < 16
    ensures (h * 16 + x) % 64 == h % 4 * 16 + x
  {
    assert h * 16 + x == 64 * (h / 4) + (h % 4 * 16 + x);
  }

  /** The way back, in the middle: the counter's four bytes around the version and variant. */
  method GatherCounter(mem: array<byte>, v0: nat, t2: nat, v3: nat, v4: nat, v6: byte, v7: byte)
    requires v0 + 16 <= mem.Length && v4 < TWO32
    requires t2 == SignExtend(mem[v0 + 7]) && v3 == SignExtend(mem[v0 + 8])
    modifies mem
    ensures var b6: nat, b7: nat, b8: nat, b9: nat := old(mem[v0 + 6]), old(mem[v0 + 7]), old(mem[v0 + 8]), old(mem[v0 + 9]);
      && mem[v0 + 6] == 112 + b8 / 4 % 16 && mem[v0 + 7] == b8 % 4 * 64 + b9 / 4
      && mem[v0 + 8] == 128 + b9 % 4 * 16 + b6 / 16 && mem[v0 + 9] == b6 % 16 * 16 + b7 % 16
    ensures forall i :: 0 <= i < mem.Length && !(v0 + 6 <= i < v0 + 10) ==> mem[i] == old(mem[i])
  {
    hide And, Or, SignExtend, ToByte, GatherRegister, U32;
    ghost var b6: nat, b7: byte, b8: byte := mem[v0 + 6], mem[v0 + 7], mem[v0 + 8];
    var v1: nat := mem[v0 + 9];
    var t13: nat := mem[v0 + 6];
    SignBits(b7);
    SignBits(b8);
    BackRegister9(b6, b7);
    var v2 := Or(t13 * 16, And(t2, 15));
    mem[v0 + 9] := ToByte(v2);
    BackRegister6(b8);
    mem[v0 + 6] := ToByte(Or(And(v3, 60) / 4, 112));
    var w := GatherRegister(v2, v1, v4, v6, v7);
    GatherTop(v2, v1, v4, v6, v7);
    BackRegister7(b8, v1);
    mem[v0 + 7] := ToByte(Or(w / 0x4000_0000_0000_0000, And(Or(v1, U32(v3 * 0x100)) / 4, 252)));
    BackRegister8(v1 % 16, v2);
    mem[v0 + 8] := ToByte(Or(And(U32(w / 0x100_0000_0000_0000), 63), 128));
    LastQuads(v1, v2, b6, b7);
  }

  lemma LastQuads(b9: nat, v2: nat, b6: nat, b7: byte)
    requires v2 == b6 * 16 + b7 % 16
    ensures b9 % 16 % 4 == b9 % 4 && v2 / 0x100 == b6 / 16
  {
  }

  lemma RfcOfPieces(a: Octets, s: Octets)
    requires a[0] == s[10] && a[1] == s[11] && a[2] == s[12] && a[3] == s[13] && a[4] == s[14] && a[5] == s[15]
    requires a[10] == s[4] && a[11] == s[5] && a[12] == s[0] && a[13] == s[1] && a[14] == s[2] && a[15] == s[3]
    requires a[6] == 112 + s[8] / 4 % 16 && a[7] == s[8] as nat % 4 * 64 + s[9] / 4
    requires a[8] == 128 + s[9] % 4 * 16 + s[6] / 16 && a[9] == s[6] as nat % 16 * 16 + s[7] % 16
    ensures a == RfcOf(s)
  {
    assert a[..6] == s[10..] && a[10..12] == s[4..6] && a[12..] == s[..4];
    assert a == a[..6] + [a[6], a[7], a[8], a[9]] + a[10..12] + a[12..];
  }

  lemma SqlTest(b7: byte, b8: byte)
    ensures Int8(b7) > -113 <==> b7 / 16 != 8
    ensures Int8(b8) > -65 <==> b8 / 64 != 2
  {
  }

  method ToRfcOrder(mem: array<byte>, v0: nat) returns (code: nat)
    requires v0 + 16 <= mem.Length
    modifies mem
    ensures code == if old(mem[v0 + 7]) / 16 == 8 && old(mem[v0 + 8]) / 64 == 2 then 0 else 5
    ensures code == if old(IsSql(mem[v0..v0 + 16])) then OK else WRONG_VERSION
    ensures code == OK ==> mem[v0..v0 + 16] == RfcOf(old(mem[v0..v0 + 16]))
    ensures code != OK ==> mem[..] == old(mem[..])
    ensures forall i :: 0 <= i < mem.Length && !(v0 <= i < v0 + 16) ==> mem[i] == old(mem[i])
  {
    hide SignExtend, RfcOf, Int8;
    ghost var s: Octets := mem[v0..v0 + 16];
    var t0 := mem[v0 + 7];
    var t1 := mem[v0 + 8];
    SqlTest(t0, t1);
    if Int8(t0) > -113 {
      return WRONG_VERSION;
    }
    if Int8(t1) > -65 {
      return WRONG_VERSION;
    }
    var v2, v3 := SignExtend(t0), SignExtend(t1);
    var v4, v6, v7 := SwapEndsBack(mem, v0);
    GatherCounter(mem, v0, v2, v3, v4, v6, v7);
    ghost var a: Octets := mem[v0..v0 + 16];
    RfcOfPieces(a, s);
    code := OK;
  }
}
