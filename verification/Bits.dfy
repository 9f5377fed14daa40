/** Bitwise operators on machine words held as natural numbers, and the lemmas that turn the
    masked and shifted expressions of the translated core into plain arithmetic. A left shift
    of a word is a multiplication by a power of two, a logical right shift is a division. */
module Bits {

  const TWO64: nat := 0x1_0000_0000_0000_0000
  const TWO32: nat := 0x1_0000_0000

  function Pow2(k: nat): (p: nat)
    ensures p > 0
  {
    if k == 0 then 1 else 2 * Pow2(k - 1)
  }

  function And(a: nat, b: nat): nat {
    if a == 0 || b == 0 then 0
    else (if a % 2 == 1 && b % 2 == 1 then 1 else 0) + 2 * And(a / 2, b / 2)
  }

  function Or(a: nat, b: nat): nat {
    if a == 0 then b
    else if b == 0 then a
    else (if a % 2 == 1 || b % 2 == 1 then 1 else 0) + 2 * Or(a / 2, b / 2)
  }

  function Xor(a: nat, b: nat): nat {
    if a == 0 then b
    else if b == 0 then a
    else (if a % 2 != b % 2 then 1 else 0) + 2 * Xor(a / 2, b / 2)
  }

  /** The powers of two that the core's shifts and masks use. */
  lemma {:induction false} Powers()
    ensures Pow2(0) == 1 && Pow2(2) == 4 && Pow2(3) == 8 && Pow2(4) == 0x10 && Pow2(5) == 0x20 && Pow2(6) == 0x40 && Pow2(7) == 0x80 && Pow2(8) == 0x100
    ensures Pow2(16) == 0x1_0000 && Pow2(20) == 0x10_0000 && Pow2(24) == 0x100_0000
    ensures Pow2(32) == 0x1_0000_0000 && Pow2(40) == 0x100_0000_0000 && Pow2(44) == 0x1000_0000_0000
    ensures Pow2(48) == 0x1_0000_0000_0000 && Pow2(56) == 0x100_0000_0000_0000
    ensures Pow2(64) == TWO64
  {
    assert Pow2(8) == 16 * Pow2(4);
    Add(8, 8);
    Add(16, 4);
    Add(16, 8);
    Add(16, 16);
    Add(32, 8);
    Add(40, 4);
    Add(32, 16);
    Add(48, 8);
    Add(32, 32);
  }

  lemma {:induction false} Add(i: nat, j: nat)
    ensures Pow2(i + j) == Pow2(i) * Pow2(j)
  {
    if i > 0 {
      Add(i - 1, j);
      assert Pow2(i + j) == 2 * Pow2(i - 1 + j);
      assert Pow2(i) * Pow2(j) == 2 * (Pow2(i - 1) * Pow2(j)) by {
        assert Pow2(i) == 2 * Pow2(i - 1);
      }
    }
  }

  /** `h` moved up by `k` bits. */
  function Shl(h: nat, k: nat): nat {
    if k == 0 then h else 2 * Shl(h, k - 1)
  }

  lemma {:induction false} ShlIsTimes(h: nat, k: nat)
    ensures Shl(h, k) == h * Pow2(k)
  {
    if k > 0 {
      ShlIsTimes(h, k - 1);
      var m := Pow2(k - 1);
      assert h * (2 * m) == 2 * (h * m);
    }
  }

  lemma {:induction false} AndNothing()
    ensures And(0, 0) == 0
  {
  }

  lemma {:induction false} AndBit(a: nat, b: nat, x: nat, y: nat)
    requires x < 2 && y < 2
    ensures And(2 * a + x, 2 * b + y) == 2 * And(a, b) + if x == 1 && y == 1 then 1 else 0
  {
  }

  lemma {:induction false} AndUnfold(a: nat, b: nat)
    ensures And(a, b) == (if a % 2 == 1 && b % 2 == 1 then 1 else 0) + 2 * And(a / 2, b / 2)
  {
  }

  lemma {:induction false} OrNothing()
    ensures Or(0, 0) == 0
  {
  }

  lemma {:induction false} OrBit(a: nat, b: nat, x: nat, y: nat)
    requires x < 2 && y < 2
    ensures Or(2 * a + x, 2 * b + y) == 2 * Or(a, b) + if x == 1 || y == 1 then 1 else 0
  {
  }

  /** `x` with its lowest `k` bits dropped, and those bits alone. */
  function Shr(x: nat, k: nat): nat {
    if k == 0 then x else Shr(x / 2, k - 1)
  }

  function Low(x: nat, k: nat): (l: nat)
    ensures l < Pow2(k)
  {
    if k == 0 then 0 else x % 2 + 2 * Low(x / 2, k - 1)
  }

  /** A word put together from two parts comes apart into them. */
  lemma {:induction false} Joined(h: nat, l: nat, k: nat)
    requires l < Pow2(k)
    ensures Shr(Shl(h, k) + l, k) == h && Low(Shl(h, k) + l, k) == l
  {
    if k > 0 {
      Joined(h, l / 2, k - 1);
      assert (Shl(h, k) + l) / 2 == Shl(h, k - 1) + l / 2;
    }
  }

  /** Conjunction works on the high and the low part of a word separately. */
  lemma {:induction false} AndSplit(h: nat, l: nat, h': nat, l': nat, k: nat)
    requires l < Pow2(k) && l' < Pow2(k)
    ensures And(Shl(h, k) + l, Shl(h', k) + l') == Shl(And(h, h'), k) + And(l, l')
  {
    hide And, Shl, Shr, Low, Pow2;
    Joined(h, l, k);
    Joined(h', l', k);
    AndParts(Shl(h, k) + l, Shl(h', k) + l', k);
  }

  lemma {:induction false} AndParts(x: nat, y: nat, k: nat)
    ensures And(x, y) == Shl(And(Shr(x, k), Shr(y, k)), k) + And(Low(x, k), Low(y, k))
  {
    hide And;
    if k == 0 {
      AndNothing();
    } else {
      AndParts(x / 2, y / 2, k - 1);
      AndBit(x / 2, y / 2, x % 2, y % 2);
      AndBit(Low(x / 2, k - 1), Low(y / 2, k - 1), x % 2, y % 2);
    }
  }

  /** Disjunction works on the high and the low part of a word separately. */
  lemma {:induction false} OrSplit(h: nat, l: nat, h': nat, l': nat, k: nat)
    requires l < Pow2(k) && l' < Pow2(k)
    ensures Or(Shl(h, k) + l, Shl(h', k) + l') == Shl(Or(h, h'), k) + Or(l, l')
  {
    hide Or, Shl, Shr, Low, Pow2;
    Joined(h, l, k);
    Joined(h', l', k);
    OrParts(Shl(h, k) + l, Shl(h', k) + l', k);
  }

  lemma {:induction false} OrParts(x: nat, y: nat, k: nat)
    ensures Or(x, y) == Shl(Or(Shr(x, k), Shr(y, k)), k) + Or(Low(x, k), Low(y, k))
  {
    hide Or;
    if k == 0 {
      OrNothing();
    } else {
      OrParts(x / 2, y / 2, k - 1);
      OrBit(x / 2, y / 2, x % 2, y % 2);
      OrBit(Low(x / 2, k - 1), Low(y / 2, k - 1), x % 2, y % 2);
    }
  }

  /** Exclusive or works on the high and the low part of a word separately. */
  lemma {:induction false} XorSplit(h: nat, l: nat, h': nat, l': nat, k: nat)
    requires l < Pow2(k) && l' < Pow2(k)
    ensures Xor(Shl(h, k) + l, Shl(h', k) + l') == Shl(Xor(h, h'), k) + Xor(l, l')
  {
    hide Xor, Shl, Shr, Low, Pow2;
    Joined(h, l, k);
    Joined(h', l', k);
    XorParts(Shl(h, k) + l, Shl(h', k) + l', k);
  }

  lemma {:induction false} XorParts(x: nat, y: nat, k: nat)
    ensures Xor(x, y) == Shl(Xor(Shr(x, k), Shr(y, k)), k) + Xor(Low(x, k), Low(y, k))
  {
    hide Xor;
    if k == 0 {
      XorNothing();
    } else {
      XorParts(x / 2, y / 2, k - 1);
      XorBit(x / 2, y / 2, x % 2, y % 2);
      XorBit(Low(x / 2, k - 1), Low(y / 2, k - 1), x % 2, y % 2);
    }
  }

  lemma {:induction false} XorNothing()
    ensures Xor(0, 0) == 0
  {
  }

  lemma {:induction false} XorBit(a: nat, b: nat, x: nat, y: nat)
    requires x < 2 && y < 2
    ensures Xor(2 * a + x, 2 * b + y) == 2 * Xor(a, b) + if x != y then 1 else 0
  {
  }

  lemma {:induction false} XorUnfold(a: nat, b: nat)
    ensures Xor(a, b) == (if a % 2 != b % 2 then 1 else 0) + 2 * Xor(a / 2, b / 2)
  {
  }

  lemma {:induction false} XorBelow(a: nat, b: nat, k: nat)
    requires a < Pow2(k) && b < Pow2(k)
    ensures Xor(a, b) < Pow2(k)
  {
    if k > 0 && a != 0 && b != 0 {
      XorBelow(a / 2, b / 2, k - 1);
    }
  }

  /** Exclusive or with the same word twice gives the other word back. */
  lemma {:induction false} XorCancels(a: nat, b: nat)
    ensures Xor(Xor(a, b), a) == b
    decreases a + b
  {
    if a == 0 || b == 0 {
      XorSelf(a);
    } else {
      hide Xor;
      XorCancels(a / 2, b / 2);
      XorUnfold(a, b);
      XorUnfold(Xor(a, b), a);
    }
  }

  lemma {:induction false} XorSelf(a: nat)
    ensures Xor(a, a) == 0
  {
    if a != 0 {
      XorSelf(a / 2);
    }
  }

  /** `hi << k | lo` is a sum when `lo` fits below bit `k`. */
  lemma {:induction false} OrJoin(hi: nat, lo: nat, k: nat)
    requires lo < Pow2(k)
    ensures Or(hi * Pow2(k), lo) == hi * Pow2(k) + lo
  {
    OrSplit(hi, 0, 0, lo, k);
    ShlIsTimes(hi, k);
    ShlIsTimes(0, k);
  }

  lemma {:induction false} OrSwap(a: nat, b: nat)
    ensures Or(a, b) == Or(b, a)
  {
    if a != 0 && b != 0 {
      OrSwap(a / 2, b / 2);
    }
  }

  lemma {:induction false} OrBelow(a: nat, b: nat, k: nat)
    requires a < Pow2(k) && b < Pow2(k)
    ensures Or(a, b) < Pow2(k)
  {
    if k > 0 && a != 0 && b != 0 {
      OrBelow(a / 2, b / 2, k - 1);
    }
  }

  /** A mask of `k` ones keeps the remainder modulo `2^k`. */
  lemma {:induction false} AndLow(h: nat, l: nat, k: nat)
    requires l < Pow2(k)
    ensures And(Shl(h, k) + l, Pow2(k) - 1) == l
  {
    if k > 0 {
      hide And, Shl, Pow2;
      AndLow(h, l / 2, k - 1) by { Halved(h, l, k); }
      AndUnfold(Shl(h, k) + l, Pow2(k) - 1);
      Halved(h, l, k);
    }
  }

  /** Halving a joined word and a mask of ones. */
  lemma {:induction false} Halved(h: nat, l: nat, k: nat)
    requires k > 0 && l < Pow2(k)
    ensures l / 2 < Pow2(k - 1)
    ensures (Shl(h, k) + l) / 2 == Shl(h, k - 1) + l / 2 && (Shl(h, k) + l) % 2 == l % 2
    ensures (Pow2(k) - 1) / 2 == Pow2(k - 1) - 1 && (Pow2(k) - 1) % 2 == 1
  {
  }

  lemma {:induction false} Parts(x: nat, k: nat)
    ensures x == Shl(Shr(x, k), k) + Low(x, k)
  {
    if k > 0 {
      Parts(x / 2, k - 1);
    }
  }

  /** A field mask: `k` ones starting at bit `j` keep the field and clear everything else. */
  lemma {:induction false} AndField(x: nat, j: nat, k: nat)
    ensures And(x, Shl(Pow2(k) - 1, j)) == Shl(Low(Shr(x, j), k), j)
  {
    var h := Shr(x, j);
    Parts(x, j);
    Parts(h, k);
    AndLow(Shr(h, k), Low(h, k), k);
    AndSplit(h, Low(x, j), Pow2(k) - 1, 0, j);
    assert And(Low(x, j), 0) == 0;
  }

  /** Division by a power of two drops the low bits, remainder keeps them. */
  lemma {:induction false} ShrIsDiv(x: nat, k: nat, d: nat)
    requires d == Pow2(k)
    ensures x / d == Shr(x, k) && x % d == Low(x, k)
  {
    Parts(x, k);
    ShlIsTimes(Shr(x, k), k);
    DivMod(Shr(x, k), Low(x, k), d);
  }

  lemma {:induction false} DivMod(h: nat, l: nat, d: nat)
    requires l < d
    ensures (h * d + l) / d == h
    ensures (h * d + l) % d == l
  {
    var q, r := (h * d + l) / d, (h * d + l) % d;
    DivisionLaw(h * d + l, d);
    if q < h {
      Gap(q, h, d);
    } else if h < q {
      Gap(h, q, d);
    }
  }

  lemma {:induction false} DivisionLaw(x: nat, d: nat)
    requires d > 0
    ensures x == (x / d) * d + x % d && x % d < d
  {
  }

  lemma {:induction false} Gap(q: nat, h: nat, d: nat)
    requires q < h
    ensures q * d + d <= h * d
  {
    if q + 1 < h {
      Gap(q, h - 1, d);
    }
    assert h * d == (h - 1) * d + d;
  }

  /** The field mask, with its two powers of two given as numbers. */
  lemma {:induction false} Field(x: nat, j: nat, k: nat, dj: nat, dk: nat, mask: nat)
    requires dj > 0 && dk > 0 && dj == Pow2(j) && dk == Pow2(k)
    requires mask == dk * dj - dj
    ensures And(x, mask) == x / dj % dk * dj
  {
    hide And, Pow2, Shl, Shr, Low;
    var f := Low(Shr(x, j), k);
    assert f == x / dj % dk by {
      ShrIsDiv(x, j, dj);
      ShrIsDiv(Shr(x, j), k, dk);
    }
    FieldMask(x, j, k, mask, f * dj) by {
      ShlIsTimes(dk - 1, j);
      ShlIsTimes(f, j);
    }
  }

  lemma {:induction false} FieldMask(x: nat, j: nat, k: nat, mask: nat, r: nat)
    requires mask == Shl(Pow2(k) - 1, j) && r == Shl(Low(Shr(x, j), k), j)
    ensures And(x, mask) == r
  {
    AndField(x, j, k);
  }

  /** Exclusive or with `k` ones complements a word of `k` bits. */
  lemma {:induction false} XorOnes(x: nat, k: nat)
    requires x < Pow2(k)
    ensures Xor(x, Pow2(k) - 1) == Pow2(k) - 1 - x
  {
    if k > 0 {
      XorOnes(x / 2, k - 1);
    }
  }
}
