/** Reading the timestamp out of a value, in either layout, without converting it first. */
module Readers {
  import opened Bits
  import opened Bytes
  import opened Words
  import Stream
  import V7
  import SqlOrder

  const RFC: nat := 1
  const SQL: nat := 2

  // ---- The registers --------------------------------------------------------------------------------

  /** `Or` of a gathered low part and the next byte up. */
  lemma BE6(b0: byte, b1: byte, b2: byte, b3: byte, b4: byte, b5: byte)
    ensures BE([b0, b1, b2, b3, b4, b5])
         == 0x100_0000_0000 * b0 as nat + 0x1_0000_0000 * b1 as nat + 0x100_0000 * b2 as nat
            + 0x1_0000 * b3 as nat + 0x100 * b4 as nat + b5
  {
    assert [b0, b1, b2, b3, b4, b5][..5] == [b0, b1, b2, b3, b4];
    assert [b0, b1, b2, b3, b4][..4] == [b0, b1, b2, b3];
    assert [b0, b1, b2, b3][..3] == [b0, b1, b2];
    assert [b0, b1, b2][..2] == [b0, b1];
    assert [b0, b1][..1] == [b0] && [b0][..0] == [];
    assert BE([b0]) == b0 && BE([b0, b1]) == 0x100 * b0 as nat + b1;
    assert BE([b0, b1, b2]) == 0x1_0000 * b0 as nat + 0x100 * b1 as nat + b2;
    assert BE([b0, b1, b2, b3, b4]) == 0x1_0000 * BE([b0, b1, b2]) + 0x100 * b3 as nat + b4;
  }

  /** The timestamp's top five bytes, gathered the way the checked reader does, the lowest zero. */
  function TopFive(b0: nat, b1: nat, b2: nat, b3: nat, b4: nat): nat {
    Or(Or(Or(Or(b3 * 0x1_0000, b4 * 0x100), b2 * 0x100_0000), b1 * 0x1_0000_0000), b0 * 0x100_0000_0000)
  }

  lemma TopFiveIs(b0: byte, b1: byte, b2: byte, b3: byte, b4: byte, b5: byte)
    ensures TopFive(b0, b1, b2, b3, b4) + b5 == BE([b0, b1, b2, b3, b4, b5])
    ensures TopFive(b0, b1, b2, b3, b4) % 0x100 == 0
    ensures Or(TopFive(b0, b1, b2, b3, b4), b5) == BE([b0, b1, b2, b3, b4, b5])
  {
    hide Or, BE;
    var x0: nat, x1: nat, x2: nat, x3: nat, x4: nat := b0, b1, b2, b3, b4;
    Join16(x3, x4 * 0x100);
    var v := x3 * 0x1_0000 + x4 * 0x100;
    Join24(x2, v);
    OrSwap(v, x2 * 0x100_0000);
    var w := x2 * 0x100_0000 + v;
    Join32(x1, w);
    OrSwap(w, x1 * 0x1_0000_0000);
    var y := x1 * 0x1_0000_0000 + w;
    Join40(x0, y);
    OrSwap(y, x0 * 0x100_0000_0000);
    var z := x0 * 0x1_0000_0000 + x1 * 0x100_0000 + x2 * 0x1_0000 + x3 * 0x100 + x4;
    assert TopFive(b0, b1, b2, b3, b4) == z * 0x100;
    Join8(z, b5);
    BE6(b0, b1, b2, b3, b4, b5);
  }

  /** All six bytes, gathered the way the plain readers do. */
  function AllSix(b0: nat, b1: nat, b2: nat, b3: nat, b4: nat, b5: nat): nat {
    Or(Or(Or(Or(Or(b1 * 0x1_0000_0000, b0 * 0x100_0000_0000), b2 * 0x100_0000), b3 * 0x1_0000), b4 * 0x100), b5)
  }

  lemma AllSixIs(b0: byte, b1: byte, b2: byte, b3: byte, b4: byte, b5: byte)
    ensures AllSix(b0, b1, b2, b3, b4, b5) == BE([b0, b1, b2, b3, b4, b5])
  {
    hide Or, BE;
    var x0: nat, x1: nat, x2: nat, x3: nat, x4: nat := b0, b1, b2, b3, b4;
    Join40(x0, x1 * 0x1_0000_0000);
    OrSwap(x1 * 0x1_0000_0000, x0 * 0x100_0000_0000);
    var v := x0 * 0x100 + x1;
    Join32(v, x2 * 0x100_0000);
    Join24(v * 0x100 + x2, x3 * 0x1_0000);
    Join16((v * 0x100 + x2) * 0x100 + x3, x4 * 0x100);
    Join8(((v * 0x100 + x2) * 0x100 + x3) * 0x100 + x4, b5);
    BE6(b0, b1, b2, b3, b4, b5);
  }

  // ---- What a reader answers ------------------------------------------------------------------------

  /** The six timestamp bytes of a value in a layout, and whether it is a version 7 there. */
  function TimeBytes(id: SqlOrder.Octets, layout: nat): seq<byte> {
    if layout == SQL then id[10..] else id[..6]
  }

  predicate IsV7In(id: SqlOrder.Octets, layout: nat) {
    (layout == RFC && SqlOrder.IsV7(id)) || (layout == SQL && SqlOrder.IsSql(id))
  }

  datatype Option<T> = None | Some(value: T)

  /** The checked timestamp: none unless the value is a version 7 in the layout, dated no later
      than the last millisecond of the year 9999. */
  function Timestamp(id: SqlOrder.Octets, layout: nat): Option<nat> {
    if IsV7In(id, layout) && BE(TimeBytes(id, layout)) <= V7.MAX_MILLIS then Some(BE(TimeBytes(id, layout))) else None
  }

  /** Which values have a timestamp, on their bytes. */
  lemma TimestampExactly(id: SqlOrder.Octets, layout: nat, ms: nat)
    ensures Timestamp(id, layout) == Some(ms) <==>
      || (layout == 1 && id[6] / 16 == 7 && id[8] / 64 == 2 && BE(id[..6]) == ms <= 253402300799999)
      || (layout == 2 && id[7] / 16 == 8 && id[8] / 64 == 2 && BE(id[10..]) == ms <= 253402300799999)
    ensures Timestamp(id, layout) == None <==>
      && !(layout == 1 && id[6] / 16 == 7 && id[8] / 64 == 2 && BE(id[..6]) <= 253402300799999)
      && !(layout == 2 && id[7] / 16 == 8 && id[8] / 64 == 2 && BE(id[10..]) <= 253402300799999)
  {
  }

  /** The cap is tested on the top 40 bits alone. That is exact because the cap's last byte is
      all ones. */
  lemma CapNeedsOnlyTopBits(top: nat, last: byte)
    requires top % 0x100 == 0
    ensures top > 253402300799999 <==> top + last > V7.MAX_MILLIS
  {
  }

  method GetTimestamp(mem: array<byte>, v0: nat, layout: nat, v2: nat) returns (version: nat)
    requires v0 + 16 <= mem.Length && v2 + 8 <= mem.Length
    modifies mem
    ensures var id, ms := old(mem[v0..v0 + 16]), BE(old(if layout == 2 then mem[v0 + 10..v0 + 16] else mem[v0..v0 + 6]));
      var dated := (layout == 1 && id[6] / 16 == 7 && id[8] / 64 == 2) || (layout == 2 && id[7] / 16 == 8 && id[8] / 64 == 2);
      && version == (if dated && ms <= 253402300799999 then 7 else 0)
      && (version == 7 ==> mem[v2..v2 + 8] == LEBytes(ms, 8))
    ensures var t := Timestamp(old(mem[v0..v0 + 16]), layout);
      && version == (if t.Some? then 7 else 0)
      && (t.Some? ==> mem[v2..v2 + 8] == LEBytes(t.value, 8))
      && (t.None? ==> mem[..] == old(mem[..]))
    ensures forall i :: 0 <= i < mem.Length && !(v2 <= i < v2 + 8) ==> mem[i] == old(mem[i])
  {
    hide And, Or, Int8, BE, LE, LEBytes;
    ghost var id: SqlOrder.Octets := mem[v0..v0 + 16];
    SqlOrder.V7Test(mem[v0 + 6], mem[v0 + 8]);
    SqlOrder.SqlTest(mem[v0 + 7], mem[v0 + 8]);
    var from;
    if layout == 1 {
      if Int8(mem[v0 + 8]) > -65 {
        return 0;
      }
      if And(And(mem[v0 + 6], 0xFFFF_FFF0), 255) != 112 {
        return 0;
      }
      from := v0;
    } else if layout == 2 {
      if Int8(mem[v0 + 7]) > -113 {
        return 0;
      }
      if Int8(mem[v0 + 8]) > -65 {
        return 0;
      }
      from := v0 + 10;
    } else {
      return 0;
    }
    assert TimeBytes(id, layout) == mem[from..from + 6]
        == [mem[from], mem[from + 1], mem[from + 2], mem[from + 3], mem[from + 4], mem[from + 5]];
    TopFiveIs(mem[from], mem[from + 1], mem[from + 2], mem[from + 3], mem[from + 4], mem[from + 5]);
    var v8 := TopFive(mem[from], mem[from + 1], mem[from + 2], mem[from + 3], mem[from + 4]);
    CapNeedsOnlyTopBits(v8, mem[from + 5]);
    if v8 > 253402300799999 {
      return 0;
    }
    Store(mem, v2, 8, Or(v8, mem[from + 5]));
    version := 7;
  }

  method UnixMillisIn(mem: array<byte>, v0: nat, layout: nat) returns (ms: nat)
    requires v0 + 16 <= mem.Length
    ensures ms == if layout == 1 then BE(mem[v0..v0 + 6]) else if layout == 2 then BE(mem[v0 + 10..v0 + 16]) else 0
  {
    hide Or, BE;
    if layout != 1 && layout != 2 {
      return 0;
    }
    var at := if layout == 2 then v0 + 10 else v0;
    assert TimeBytes(mem[v0..v0 + 16], layout) == mem[at..at + 6]
        == [mem[at], mem[at + 1], mem[at + 2], mem[at + 3], mem[at + 4], mem[at + 5]];
    AllSixIs(mem[at], mem[at + 1], mem[at + 2], mem[at + 3], mem[at + 4], mem[at + 5]);
    ms := AllSix(mem[at], mem[at + 1], mem[at + 2], mem[at + 3], mem[at + 4], mem[at + 5]);
  }

  // ---- Round trips ----------------------------------------------------------------------------------

  /** Every minted value reads back its millisecond, in both layouts, and up to the end of 9999
      the checked reader gives it. */
  lemma MintedReadsBack(m: V7.Mint)
    requires m.Valid()
    ensures BE(TimeBytes(V7.Encode(m), RFC)) == Stream.Millis(m.position)
    ensures BE(TimeBytes(SqlOrder.SqlOf(V7.Encode(m)), SQL)) == Stream.Millis(m.position)
    ensures Stream.Millis(m.position) <= V7.MAX_MILLIS ==>
      && Timestamp(V7.Encode(m), RFC) == Some(Stream.Millis(m.position))
      && Timestamp(SqlOrder.SqlOf(V7.Encode(m)), SQL) == Some(Stream.Millis(m.position))
  {
    hide SqlOrder.SqlOf, V7.Encode, BE;
    V7.EncodeReads(m);
    SqlReadsTheSame(V7.Encode(m));
  }

  /** Every version 7, minted here or not, reads the same in SQL order as it does converted back. */
  lemma SqlReadsTheSame(a: SqlOrder.Octets)
    requires SqlOrder.IsV7(a)
    ensures TimeBytes(SqlOrder.SqlOf(a), SQL) == TimeBytes(a, RFC)
    ensures Timestamp(SqlOrder.SqlOf(a), SQL) == Timestamp(a, RFC)
  {
    SqlOrder.SqlOfConverts(a);
  }
}
