/** The version 7 calls of the translated core, on its linear memory. The stream word lives at
    address 65560 and is advanced by compare-and-store loops; `Rivals` are the reservations of
    others that land between a loop's load and its compare. */
module Core {
  import opened Bits
  import opened Bytes
  import opened Words
  import opened Stream
  import opened V7

  const WORD_AT: nat := 65560
  const BASE_SIZE: nat := 0x2_0000

  // ---- The stream word in memory ------------------------------------------------------------------

  function WordOf(mem: array<byte>): Word
    requires mem.Length >= BASE_SIZE
    reads mem
  {
    assert Load(mem, WORD_AT, 8) <= TOP by {
      LEBound(mem[WORD_AT..WORD_AT + 8]);
      Powers();
    }
    Load(mem, WORD_AT, 8)
  }

  /** Two memories that agree everywhere but in the stream word and from `lo` up to `hi`. */
  ghost predicate SameBut(m: seq<byte>, m': seq<byte>, lo: nat, hi: nat) {
    && |m| == |m'|
    && forall i :: 0 <= i < |m| && !(WORD_AT <= i < WORD_AT + 8) && !(lo <= i < hi) ==> m'[i] == m[i]
  }

  ghost predicate SameButWord(m: seq<byte>, m': seq<byte>) {
    SameBut(m, m', 0, 0)
  }

  lemma NothingWithin(m: seq<byte>, m': seq<byte>, lo: nat)
    requires SameButWord(m, m')
    ensures SameBut(m, m', lo, lo)
  {
  }

  lemma ThenWithin(m: seq<byte>, m': seq<byte>, m'': seq<byte>, lo: nat, hi: nat)
    requires SameButWord(m, m') && |m'| == |m''|
    requires forall i :: 0 <= i < |m'| && !(lo <= i < hi) ==> m''[i] == m'[i]
    ensures SameBut(m, m'', lo, hi)
  {
  }

  method StoreWord(mem: array<byte>, w: Word)
    requires mem.Length >= BASE_SIZE
    modifies mem
    ensures SameButWord(old(mem[..]), mem[..])
    ensures WordOf(mem) == w
  {
    Store(mem, WORD_AT, 8, w);
    ReadThenStore(w, 8) by { Powers(); }
  }

  /** Writing outside the word leaves the stream alone. */
  twostate lemma WordKept(mem: array<byte>)
    requires mem.Length >= BASE_SIZE
    requires forall i :: WORD_AT <= i < WORD_AT + 8 ==> mem[i] == old(mem[i])
    ensures WordOf(mem) == old(WordOf(mem))
  {
    assert mem[WORD_AT..WORD_AT + 8] == old(mem[WORD_AT..WORD_AT + 8]);
  }

  // ---- Rivals -------------------------------------------------------------------------------------

  /** The reservations that others make during each round of a loop. */
  type Rivals = nat -> seq<Request>

  ghost predicate Real(rivals: Rivals) {
    forall i: nat :: AllValid(rivals(i))
  }

  ghost function Before(rivals: Rivals, rounds: nat): (rs: seq<Request>)
    requires Real(rivals)
    ensures AllValid(rs)
  {
    if rounds == 0 then [] else Before(rivals, rounds - 1) + rivals(rounds - 1)
  }

  lemma NoRounds(w: Word, rivals: Rivals)
    requires Real(rivals)
    ensures Run(w, Before(rivals, 0)) == w
  {
  }

  lemma OneMoreRound(w: Word, rivals: Rivals, rounds: nat)
    requires Real(rivals)
    ensures Run(w, Before(rivals, rounds + 1)) == Run(Run(w, Before(rivals, rounds)), rivals(rounds))
  {
    RunConcat(w, Before(rivals, rounds), rivals(rounds));
  }

  method LetRivalsRun(mem: array<byte>, rivals: Rivals, round: nat)
    requires mem.Length >= BASE_SIZE && Real(rivals)
    modifies mem
    ensures SameButWord(old(mem[..]), mem[..])
    ensures WordOf(mem) == Run(old(WordOf(mem)), rivals(round))
  {
    StoreWord(mem, Run(WordOf(mem), rivals(round)));
  }

  // ---- The two reservation loops --------------------------------------------------------------------

  /** A loop's answer is that of one atomic reservation `r` made when the word was `w`. */
  ghost predicate Answers(w: Word, r: Request, w': Word, code: nat, ms: nat, step: nat)
    requires r.Valid()
  {
    var o := Reserve(w, r);
    && w' == After(w, r)
    && code == (if o.Exhausted? then EXHAUSTED else OK)
    && (!o.Exhausted? ==> (ms + 1) * STEPS + step == Start(o, r) && step <= STEPS && r.millis <= ms <= r.millis + CLAMP)
  }

  method ReserveOne(mem: array<byte>, v0: nat, seed: nat, rivals: Rivals)
    returns (code: nat, v9: nat, v8: nat, rounds: nat)
    requires mem.Length >= BASE_SIZE && Real(rivals)
    requires v0 <= MAX_MILLIS && seed < STEPS / 2
    modifies mem
    ensures SameButWord(old(mem[..]), mem[..])
    ensures Answers(Run(old(WordOf(mem)), Before(rivals, rounds)), Request(v0, 1, seed), WordOf(mem), code, v9, v8)
  {
    hide And, Or, WordOf, Run, Before;
    rounds := 0;
    NoRounds(WordOf(mem), rivals);
    if v0 > 0xFFF_FFFF_FFFE {
      return OK, v0, seed, rounds;
    }
    ghost var r := Request(v0, 1, seed);
    JoinFields(v0, seed);
    var v7 := Or(v0 * 0x10_0000, seed) + 0x10_0000;
    var v4 := WordOf(mem);
    while true
      invariant SameButWord(old(mem[..]), mem[..])
      invariant v4 == WordOf(mem) == Run(old(WordOf(mem)), Before(rivals, rounds))
      decreases TWO64 - WordOf(mem)
    {
      var v10, v11 := v7, v4;
      v8, v9 := seed, v0;
      v4 := v11 / 0x10_0000;
      StreamFields(v11);
      if v4 != 0 && v4 - 1 >= v0 {
        var v12 := v4 - 1;
        if v12 - v0 > 11000 {
          return OK, v0, seed, rounds;
        }
        v8 := And(v11, STEP_MASK);
        if v8 == 0xF_FFFF {
          if v4 == 0xFFF_FFFF_FFFF || v4 - v0 > 1000 {
            return EXHAUSTED, v9, v8, rounds;
          }
          v10 := And(v11, MILLIS_MASK) + 0x10_0000;
          v8 := 0x10_0000;
        } else {
          Mask20(v11 + 1);
          JoinFields(v11 / STEPS, v8 + 1);
          OrSwap(v8 + 1, v11 / STEPS * STEPS);
          v10 := Or(And(v11 + 1, STEP_MASK), And(v11, MILLIS_MASK));
          v8 := v8 + 1;
        }
        v9 := v12;
      }
      assert Reserve(v11, r).Reserved? && v10 == After(v11, r);
      OneMoreRound(old(WordOf(mem)), rivals, rounds);
      LetRivalsRun(mem, rivals, rounds);
      rounds := rounds + 1;
      v4 := WordOf(mem);
      StoreWord(mem, if v4 == v11 then v10 else v4);
      if v4 == v11 {
        return OK, v9, v8, rounds;
      }
    }
  }

  method ReserveMany(mem: array<byte>, v0: nat, steps: nat, seed: nat, rivals: Rivals)
    returns (code: nat, v12: nat, v11: nat, rounds: nat)
    requires mem.Length >= BASE_SIZE && Real(rivals)
    requires v0 <= MAX_MILLIS && 0 < steps && seed + steps <= STEPS
    modifies mem
    ensures SameButWord(old(mem[..]), mem[..])
    ensures Answers(Run(old(WordOf(mem)), Before(rivals, rounds)), Request(v0, steps, seed), WordOf(mem), code, v12, v11)
  {
    hide And, Or, Xor, WordOf, Run, Before;
    rounds := 0;
    NoRounds(WordOf(mem), rivals);
    if v0 > 0xFFF_FFFF_FFFE {
      return OK, v0, seed, rounds;
    }
    ghost var r := Request(v0, steps, seed);
    Mask20(steps + seed - 1);
    JoinFields(v0, steps + seed - 1);
    var v9 := Or(v0 * 0x10_0000, And(steps + seed - 1, STEP_MASK)) + 0x10_0000;
    var v10 := WordOf(mem);
    while true
      invariant SameButWord(old(mem[..]), mem[..])
      invariant v10 == WordOf(mem) == Run(old(WordOf(mem)), Before(rivals, rounds))
      decreases TWO64 - WordOf(mem)
    {
      var v13, v14 := v9, v10;
      v11, v12 := seed, v0;
      v10 := v14 / 0x10_0000;
      if v10 != 0 && v10 - 1 >= v0 {
        var v15 := v10 - 1;
        if v15 - v0 > 11000 {
          return OK, v0, seed, rounds;
        }
        var v8 := U32(v14);
        var v2 := And(v8, STEP_MASK);
        BatchWord(v14, steps);
        v11 := v2 + 1;
        if steps <= Xor(v2, STEP_MASK) {
          v13 := Or(And(v14, MILLIS_MASK), And(U32(steps + v8), STEP_MASK));
        } else {
          if v10 == 0xFFF_FFFF_FFFF || v10 - v0 > 1000 {
            return EXHAUSTED, v12, v11, rounds;
          }
          v13 := Or(And(v14, MILLIS_MASK), And(U32(steps + v8), STEP_MASK)) + 0x10_0000;
        }
        v12 := v15;
      }
      assert Reserve(v14, r).Reserved? && v13 == After(v14, r);
      OneMoreRound(old(WordOf(mem)), rivals, rounds);
      LetRivalsRun(mem, rivals, rounds);
      rounds := rounds + 1;
      v10 := WordOf(mem);
      StoreWord(mem, if v10 == v14 then v13 else v10);
      if v10 == v14 {
        return OK, v12, v11, rounds;
      }
    }
  }

  /** The fields a batch reads off the word: its step, the steps left in its millisecond, and
      the step after the block, wrapped at the millisecond's end. */
  lemma BatchWord(w: Word, steps: nat)
    requires 0 < steps <= STEPS
    ensures And(U32(w), STEP_MASK) == w % STEPS
    ensures Xor(w % STEPS, STEP_MASK) == STEPS - 1 - w % STEPS
    ensures Or(And(w, MILLIS_MASK), And(U32(steps + U32(w)), STEP_MASK))
         == if w % STEPS + steps < STEPS then w + steps else w + steps - STEPS
  {
    hide And, Or, Xor;
    StreamFields(w);
    Mask20(U32(w));
    Mask20(U32(steps + U32(w)));
    Complement20(w % STEPS);
    Low20(w);
    Low20(steps + U32(w));
    SumMod(steps, U32(w));
    SumMod(steps, w);
    JoinFields(w / STEPS, (steps + w) % STEPS);
    WrapOrNot(w, steps);
  }

  lemma Low20(x: nat)
    ensures U32(x) % STEPS == x % STEPS
  {
    assert x == 0x1000 * STEPS * (x / TWO32) + U32(x);
  }

  lemma SumMod(k: nat, x: nat)
    ensures (k + x) % STEPS == (k + x % STEPS) % STEPS
  {
    assert k + x == STEPS * (x / STEPS) + (k + x % STEPS);
  }

  lemma WrapOrNot(w: nat, k: nat)
    requires k <= STEPS
    ensures w / STEPS * STEPS + (k + w) % STEPS == if w % STEPS + k < STEPS then w + k else w + k - STEPS
  {
    SumMod(k, w);
  }

  // ---- The random source ----------------------------------------------------------------------------

  /** What the source will serve one call: its bytes in order, and the answer to each request,
      zero for success. A request that fails may have written anything. */
  datatype Entropy = Entropy(bytes: nat -> byte, errno: nat -> nat) {
    function Tape(from: nat, n: nat): (s: seq<byte>)
      ensures |s| == n
    {
      seq<byte>(n, i requires 0 <= i < n => bytes(from + i))
    }

    /** What a call that needs `total` bytes, at most 65536 a request, is given. */
    ghost function Draw(total: nat): Draw {
      if forall i :: 0 <= i < Requests(total) ==> errno(i) == 0 then Drawn(Tape(0, total)) else Failed
    }
  }

  lemma TapeConcat(e: Entropy, n: nat, k: nat)
    ensures e.Tape(0, n) + e.Tape(n, k) == e.Tape(0, n + k)
  {
  }

  const REQUEST: nat := 0x1_0000

  function Requests(total: nat): nat {
    (total + REQUEST - 1) / REQUEST
  }

  method RandomGet(mem: array<byte>, at: nat, n: nat, e: Entropy, from: nat, request: nat) returns (errno: nat)
    requires at + n <= mem.Length
    modifies mem
    ensures mem[at..at + n] == e.Tape(from, n)
    ensures forall i :: 0 <= i < mem.Length && !(at <= i < at + n) ==> mem[i] == old(mem[i])
    ensures errno == e.errno(request)
  {
    CopyIn(mem, at, e.Tape(from, n));
    errno := e.errno(request);
  }

  /** A draw has the source's first bytes in order exactly when every request of at most 65536 bytes
      is answered with zero. */
  lemma DrawExactly(e: Entropy, total: nat, requests: nat)
    requires 65536 * (requests - 1) < total <= 65536 * requests
    ensures e.Draw(total).Drawn? <==> forall i :: 0 <= i < requests ==> e.errno(i) == 0
    ensures e.Draw(total).Drawn? ==>
      |e.Draw(total).data| == total && forall i :: 0 <= i < total ==> e.Draw(total).data[i] == e.bytes(i)
  {
    assert Requests(total) == requests;
  }

  lemma OneRequest(e: Entropy)
    ensures e.Draw(11) == if e.errno(0) == 0 then Drawn(e.Tape(0, 11)) else Failed
  {
  }

  // ---- One value ------------------------------------------------------------------------------------

  method NewV7(mem: array<byte>, v0: nat, v1: nat, e: Entropy, rivals: Rivals)
    returns (v3: nat, rounds: nat)
    requires mem.Length >= BASE_SIZE && Real(rivals)
    requires WORD_AT + 8 <= v1 && v1 + 16 <= mem.Length
    modifies mem
    ensures var c := Single(v0, e.Draw(11));
      var w := Run(old(WordOf(mem)), Before(rivals, rounds));
      && v3 == Perform(w, c).code
      && WordOf(mem) == Perform(w, c).word
      && (v3 == OK ==> mem[v1..v1 + 16] == Encode(Perform(w, c).mints[0]))
    ensures SameBut(old(mem[..]), mem[..], v1, v1 + if v3 == OK then 16 else 0)
  {
    hide And, Or, WordOf, Run, Before, Encode, Reserve, Answers, SingleMint, Entropy.Draw;
    rounds := 0;
    NoRounds(WordOf(mem), rivals);
    OneRequest(e);
    if v0 > 253402300799999 {
      return OUT_OF_RANGE, rounds;
    }
    var frame := new byte[32](i => 0);
    var errno := RandomGet(frame, 21, 11, e, 0, 0);
    if errno != 0 {
      return RANDOM_SOURCE, rounds;
    }
    ghost var d := e.Tape(0, 11);
    assert frame[21..32] == d;
    var t2: nat, t3: nat, t4: nat := frame[23], frame[22], frame[24];
    var v4 := Or(Or(t2 * 0x8_0000_0000, t3 * 0x800_0000), t4 * 0x800_0000_0000) / TWO32;
    SeedBits(frame[22], frame[23], frame[24]);
    assert d[1..4] == frame[21..32][1..4] == [frame[22], frame[23], frame[24]];
    assert v4 == SingleSeed(d);
    var v9, v8;
    v3, v9, v8, rounds := ReserveOne(mem, v0, v4, rivals);
    SingleAnswered(Run(old(WordOf(mem)), Before(rivals, rounds)), v0, d, WordOf(mem), v3, v9, v8);
    hide Perform, SameBut;
    if v3 != OK {
      NothingWithin(old(mem[..]), mem[..], v1);
      return;
    }
    assert frame[25] == frame[21..32][4];
    SubSlice(frame[..], 21, 32, 5, 11);
    LayOutOne(frame, v9, v8);
    label Reserved:
    ghost var was := mem[..];
    CopyOut(frame, mem, v1);
    WordKept@Reserved(mem);
    ThenWithin(old(mem[..]), was, mem[..], v1, v1 + 16);
  }

  /** A single call that was answered so is the specified one. */
  lemma SingleAnswered(w: Word, v0: nat, d: seq<byte>, w': Word, code: nat, ms: nat, step: nat)
    requires |d| == 11 && v0 <= MAX_MILLIS && Answers(w, Request(v0, 1, SingleSeed(d)), w', code, ms, step)
    ensures var res := Perform(w, Single(v0, Drawn(d)));
      && res.code == code && res.word == w'
      && (code == OK ==> ms <= MAX_MILLIS && step <= STEPS && res.mints == [Mint((ms + 1) * STEPS + step, d[4] % 64, d[5..])])
  {
  }

  /** Copies the finished frame out, in overlapping-free pieces of 1, 4, 1, 2 and 8 bytes. */
  method CopyOut(frame: array<byte>, mem: array<byte>, v1: nat)
    requires frame != mem && frame.Length == 32 && v1 + 16 <= mem.Length && frame[14] == frame[18]
    modifies frame, mem
    ensures mem[v1..v1 + 16] == old(frame[16..32])
    ensures forall i :: 0 <= i < mem.Length && !(v1 <= i < v1 + 16) ==> mem[i] == old(mem[i])
  {
    Move(frame, 16, frame, 12, 2);
    Move(frame, 31, mem, v1 + 15, 1);
    Move(frame, 27, mem, v1 + 11, 4);
    Move(frame, 14, mem, v1 + 2, 1);
    Move(frame, 12, mem, v1, 2);
    Move(frame, 19, mem, v1 + 3, 8);
    assert forall i :: v1 <= i < v1 + 16 ==> mem[i] == old(frame[16 + (i - v1)]);
  }

  /** Lays the timestamp, version, counter and variant over the frame's random bytes. */
  method LayOutOne(frame: array<byte>, v9: nat, step: nat)
    requires frame.Length == 32 && v9 <= MAX_MILLIS && step <= STEPS
    modifies frame
    ensures var m := Mint((v9 + 1) * STEPS + step, old(frame[25]) % 64, old(frame[26..32]));
      frame[16..32] == Encode(m) && frame[14] == frame[18]
  {
    hide And, Or, Encode, ToByte;
    ghost var tail := frame[26..32];
    var v6: nat := frame[25];
    var v5 := if step > 0xF_FFFF then 1 else 0;
    var v4 := v9 + v5;
    frame[21] := ToByte(v4);
    frame[17] := ToByte(v4 / 0x1_0000_0000);
    frame[16] := ToByte(v4 / 0x100_0000_0000);
    var v8 := step * 64;
    v8 := if v5 != 0 then v8 - 0x400_0000 else v8;
    frame[25] := ToByte(Or(And(v6, 63), v8));
    frame[23] := ToByte(v8 / 0x4000);
    frame[20] := ToByte(v4 / 0x100);
    frame[19] := ToByte(v4 / 0x1_0000);
    frame[18] := ToByte(v4 / 0x100_0000);
    frame[24] := ToByte(Or(And(v8 / 0x100, 63), 128));
    frame[22] := ToByte(Or(And(v8 / 0x40_0000, 15), 112));
    frame[14] := ToByte(v4 / 0x100_0000);
    assert frame[16..32][10..] == tail;
    LaidOut(v9, step, v6, tail, frame[16..32]);
  }

  /** The bytes stored for a value are its encoding. */
  lemma LaidOut(v9: nat, step: nat, v6: nat, tail: seq<byte>, s: seq<byte>)
    requires v9 <= MAX_MILLIS && step <= STEPS && v6 < 0x100 && |s| == 16 && |tail| == 6 && s[10..] == tail
    requires var v5 := if step > 0xF_FFFF then 1 else 0;
      var v4, v8 := v9 + v5, if v5 != 0 then step * 64 - 0x400_0000 else step * 64;
      && s[0] == ToByte(v4 / 0x100_0000_0000) && s[1] == ToByte(v4 / 0x1_0000_0000) && s[2] == ToByte(v4 / 0x100_0000)
      && s[3] == ToByte(v4 / 0x1_0000) && s[4] == ToByte(v4 / 0x100) && s[5] == ToByte(v4)
      && s[6] == ToByte(Or(And(v8 / 0x40_0000, 15), 112)) && s[7] == ToByte(v8 / 0x4000)
      && s[8] == ToByte(Or(And(v8 / 0x100, 63), 128)) && s[9] == ToByte(Or(And(v6, 63), v8))
    ensures s == Encode(Mint((v9 + 1) * STEPS + step, v6 % 64, tail))
  {
    hide And, Or, Encode, Millis, Mint.Counter, Mint.Valid, ToByte;
    var v5 := if step > 0xF_FFFF then 1 else 0;
    var v4, v8 := v9 + v5, if v5 != 0 then step * 64 - 0x400_0000 else step * 64;
    SplitPosition(v9, step, v6 % 64, tail);
    CounterFields(v8, v6);
    EncodeIs(Mint((v9 + 1) * STEPS + step, v6 % 64, tail), v4, v8 + v6 % 64, s);
  }

  lemma CounterFields(v8: nat, v6: nat)
    requires v8 < 0x400_0000 && v8 % 64 == 0
    ensures var c := v8 + v6 % 64;
      && Or(And(v6, 63), v8) == c
      && ToByte(v8 / 0x4000) == ToByte(c / 0x4000)
      && ToByte(Or(And(v8 / 0x100, 63), 128)) == 0x80 + c / 0x100 % 0x40
      && ToByte(Or(And(v8 / 0x40_0000, 15), 112)) == 0x70 + c / 0x40_0000
  {
    hide And, Or;
    NoCarry(v8 / 64, v6 % 64);
    SubJoins(v8, v6);
    VariantByte(v8 / 0x100);
    VersionByte(v8 / 0x40_0000);
  }

  lemma SubJoins(v8: nat, v6: nat)
    requires v8 % 64 == 0
    ensures Or(And(v6, 63), v8) == v8 + v6 % 64 && Or(v8, And(v6, 63)) == v8 + v6 % 64
  {
    hide And, Or;
    Mask6(v6);
    Join6(v8 / 64, v6 % 64);
    OrSwap(v6 % 64, v8);
  }

  lemma VariantByte(x: nat)
    ensures ToByte(Or(And(x, 63), 128)) == 0x80 + x % 0x40
  {
    hide And, Or;
    Mask6(x);
    Join7(1, x % 64);
    OrSwap(x % 64, 128);
  }

  lemma VersionByte(x: nat)
    requires x < 16
    ensures ToByte(Or(And(x, 15), 112)) == 0x70 + x
  {
    hide And, Or;
    Mask4(x);
    Join4(7, x);
    OrSwap(x, 112);
  }

  lemma NoCarry(s: nat, x: nat)
    requires x < 64
    ensures (s * 64 + x) / 0x100 == s * 64 / 0x100
    ensures (s * 64 + x) / 0x4000 == s * 64 / 0x4000
    ensures (s * 64 + x) / 0x40_0000 == s * 64 / 0x40_0000
  {
    var c := s * 64 + x;
    assert c / 64 == s && s * 64 / 64 == s;
    assert c / 64 / 4 == c / 0x100 && s * 64 / 64 / 4 == s * 64 / 0x100;
    assert c / 64 / 0x100 == c / 0x4000 && s * 64 / 64 / 0x100 == s * 64 / 0x4000;
    assert c / 64 / 0x1_0000 == c / 0x40_0000 && s * 64 / 64 / 0x1_0000 == s * 64 / 0x40_0000;
  }

  /** A position whose step may have run past its millisecond, split at the millisecond's end. */
  lemma SplitPosition(v9: nat, step: nat, sub: nat, tail: seq<byte>)
    requires v9 < 0x1_0000_0000_0000 - 1 && step < 2 * STEPS && sub < 64 && |tail| == 6
    ensures var m := Mint((v9 + 1) * STEPS + step, sub, tail);
      && m.Valid()
      && Millis(m.position) == (if step > 0xF_FFFF then v9 + 1 else v9)
      && m.Counter() == (if step > 0xF_FFFF then step - STEPS else step) * 64 + sub
  {
  }

  /** A value given byte by byte. */
  lemma EncodeIs(m: Mint, ms: nat, c: nat, s: seq<byte>)
    requires m.Valid() && ms == Millis(m.position) && c == m.Counter() && |s| == 16
    requires s[0] == ToByte(ms / 0x100_0000_0000) && s[1] == ToByte(ms / 0x1_0000_0000) && s[2] == ToByte(ms / 0x100_0000)
    requires s[3] == ToByte(ms / 0x1_0000) && s[4] == ToByte(ms / 0x100) && s[5] == ToByte(ms)
    requires s[6] == 0x70 + c / 0x40_0000 && s[7] == ToByte(c / 0x4000)
    requires s[8] == 0x80 + c / 0x100 % 0x40 && s[9] == ToByte(c)
    requires s[10..] == m.tail
    ensures s == Encode(m)
  {
    hide BEBytes, Millis, Mint.Counter, Mint.Valid;
    BigEndian6(ms);
    assert s[..6] == BEBytes(ms, 6);
    assert s[6..10] == CounterBytes(c);
    assert s == s[..6] + s[6..10] + s[10..];
  }

  // ---- A batch ----------------------------------------------------------------------------------------

  /** How much of its output area a batch writes: all of it on success; the drawn bytes when the
      draw or the reservation fails; nothing when the arguments are refused. */
  function Touched(count: nat, code: nat): nat {
    if code == OK then 16 * count else if code == OUT_OF_RANGE || code == TOO_LARGE then 0 else 6 * count + 4
  }

  method NewV7Batch(mem: array<byte>, v0: nat, v1: nat, v2: nat, e: Entropy, rivals: Rivals)
    returns (code: nat, rounds: nat)
    requires mem.Length >= BASE_SIZE && Real(rivals)
    requires WORD_AT + 8 <= v2 && (v1 <= MAX_BATCH ==> v2 + 16 * v1 <= mem.Length)
    modifies mem
    ensures var c := Batch(v0, v1, e.Draw(6 * v1 + 4));
      var w := Run(old(WordOf(mem)), Before(rivals, rounds));
      && code == Perform(w, c).code
      && WordOf(mem) == Perform(w, c).word
      && (code == OK ==> forall i :: 0 <= i < v1 ==> Item(mem[..], v2, i) == Encode(Perform(w, c).mints[i]))
    ensures SameBut(old(mem[..]), mem[..], v2, v2 + Touched(v1, code))
  {
    hide And, Or, WordOf, Run, Before, Encode, Reserve, Answers, BatchMints, BatchMint, BatchSeed;
    rounds := 0;
    NoRounds(WordOf(mem), rivals);
    if v0 > 253402300799999 {
      return OUT_OF_RANGE, rounds;
    }
    if v1 == 0 {
      return OK, rounds;
    }
    if v1 > 0x400_0000 {
      return TOO_LARGE, rounds;
    }
    var v6 := if v1 * 16 == 0 || v1 > 0xFFF_FFFF then 1 else v2;
    var errno := DrawBatch(mem, v6, v1, e);
    WordKept(mem);
    if errno != 0 {
      return RANDOM_SOURCE, rounds;
    }
    ghost var d := e.Tape(0, 6 * v1 + 4);
    var seed := SeedOfBatch(mem, v6, v1, d);
    BatchSeedFits(v1, d);
    var v12, v11;
    code, v12, v11, rounds := ReserveMany(mem, v0, (v1 + 63) / 64, seed, rivals);
    BatchAnswered(Run(old(WordOf(mem)), Before(rivals, rounds)), v0, v1, d, WordOf(mem), code, v12, v11);
    hide Perform;
    if code != OK {
      return;
    }
    label Reserved:
    LayOutMany(mem, v6, v1, v12, v11, d);
    WordKept@Reserved(mem);
  }

  /** A batch that was answered so is the specified one. */
  lemma BatchAnswered(w: Word, v0: nat, n: nat, d: seq<byte>, w': Word, code: nat, ms: nat, step: nat)
    requires 0 < n <= MAX_BATCH && |d| == 6 * n + 4 && v0 <= MAX_MILLIS
    requires BatchSeed(n, d) + BlockSteps(n) <= STEPS
    requires Answers(w, Request(v0, BlockSteps(n), BatchSeed(n, d)), w', code, ms, step)
    ensures var res := Perform(w, Batch(v0, n, Drawn(d)));
      && res.code == code && res.word == w'
      && (code == OK ==>
            && ms <= MAX_MILLIS && step + (n - 1) / 64 < 2 * STEPS && |res.mints| == n
            && forall i :: 0 <= i < n ==> Encode(res.mints[i]) == Expected(ms, step, d, i))
  {
    hide BatchSeed, Encode;
  }

  /** The seed, scaled from the draw's last four bytes to the room left in a millisecond. */
  method SeedOfBatch(mem: array<byte>, v6: nat, n: nat, ghost d: seq<byte>) returns (seed: nat)
    requires 0 < n <= MAX_BATCH && v6 + 6 * n + 4 <= mem.Length
    requires d == mem[v6..v6 + 6 * n + 4]
    ensures seed == BatchSeed(n, d)
  {
    var t6 := Load(mem, v6 + 6 * n, 4);
    assert mem[v6 + 6 * n..v6 + 6 * n + 4] == d[6 * n..];
    var v7 := (n + 63) / 64;
    var v4 := 0x10_0000 - v7;
    var p7 := if v4 > 0x10_0000 then 0 else v4;
    var p8 := if p7 < 0x7_FFFF then p7 else 0x7_FFFF;
    seed := t6 * (p8 + 1) / TWO32;
  }

  /** The 16 bytes of item `i` of a batch laid out at `base`. */
  ghost function Item(m: seq<byte>, base: nat, i: nat): seq<byte> {
    if base + 16 * i + 16 <= |m| then m[base + 16 * i..base + 16 * i + 16] else []
  }

  /** What item `i` of a batch must read, when the batch starts at `step` of millisecond `ms`. */
  ghost function Expected(ms: nat, step: nat, d: seq<byte>, i: nat): seq<byte>
    requires ms <= MAX_MILLIS && step + i / 64 < 2 * STEPS && 6 * i + 6 <= |d|
  {
    Encode(BatchMint((ms + 1) * STEPS + step, d, i))
  }

  /** Draws a batch's random bytes into the start of its output, at most 65536 a request. */
  method DrawBatch(mem: array<byte>, v6: nat, n: nat, e: Entropy) returns (errno: nat)
    requires 0 < n && v6 + 16 * n <= mem.Length
    modifies mem
    ensures errno == 0 <==> e.Draw(6 * n + 4).Drawn?
    ensures errno == 0 ==> mem[v6..v6 + 6 * n + 4] == e.Tape(0, 6 * n + 4)
    ensures forall i :: 0 <= i < mem.Length && !(v6 <= i < v6 + 6 * n + 4) ==> mem[i] == old(mem[i])
  {
    hide Entropy.Tape, Requests;
    var v4: nat, v2: nat, request: nat := 6 * n + 4, v6, 0;
    errno := 0;
    assert mem[v6..v6] == e.Tape(0, 0);
    while v4 != 0
      invariant v6 <= v2 && v2 - v6 + v4 == 6 * n + 4
      invariant if v4 == 0 then request == Requests(6 * n + 4) else v2 - v6 == request * REQUEST
      invariant errno == 0 && forall i :: 0 <= i < request ==> e.errno(i) == 0
      invariant mem[v6..v2] == e.Tape(0, v2 - v6)
      invariant forall i :: 0 <= i < mem.Length && !(v6 <= i < v6 + 6 * n + 4) ==> mem[i] == old(mem[i])
    {
      var v7 := if v4 < 0x1_0000 then v4 else 0x1_0000;
      NextRequest(6 * n + 4, request);
      v4 := v4 - v7;
      errno := DrawOn(mem, v6, v2, v7, e, request);
      v2 := v2 + v7;
      request := request + 1;
      if errno != 0 {
        return;
      }
    }
  }

  /** The next request after `done` full ones is the last exactly when it ends the draw. */
  lemma NextRequest(total: nat, done: nat)
    requires done * REQUEST < total
    ensures done < Requests(total)
    ensures total - done * REQUEST <= REQUEST ==> done + 1 == Requests(total)
  {
  }

  /** One request, drawn right after what was drawn before it. */
  method DrawOn(mem: array<byte>, v6: nat, v2: nat, v7: nat, e: Entropy, request: nat) returns (errno: nat)
    requires v6 <= v2 && v2 + v7 <= mem.Length && mem[v6..v2] == e.Tape(0, v2 - v6)
    modifies mem
    ensures errno == e.errno(request) && mem[v6..v2 + v7] == e.Tape(0, v2 + v7 - v6)
    ensures forall i :: 0 <= i < mem.Length && !(v2 <= i < v2 + v7) ==> mem[i] == old(mem[i])
  {
    hide Entropy.Tape;
    errno := RandomGet(mem, v2, v7, e, v2 - v6, request);
    SameSlice(old(mem[..]), mem[..], v6, v2);
    Adjoin(mem[..], v6, v2, v2 + v7);
    TapeConcat(e, v2 - v6, v7);
  }

  /** The batch's fill, in place and from the last item back: each step reads the eight bytes at
      an item's six random bytes and writes the item's sixteen over a part of the same memory
      that no earlier item still needs. The big-endian timestamp is kept from item to item. */
  method LayOutMany(mem: array<byte>, v6: nat, n: nat, v12: nat, v11: nat, ghost d: seq<byte>)
    requires 0 < n <= MAX_BATCH && 16 <= v6 && v6 + 16 * n <= mem.Length
    requires v12 <= MAX_MILLIS && v11 + (n - 1) / 64 < 2 * STEPS
    requires |d| == 6 * n + 4 && mem[v6..v6 + 6 * n + 4] == d
    modifies mem
    ensures forall i :: 0 <= i < n ==> Item(mem[..], v6, i) == Expected(v12, v11, d, i)
    ensures forall i :: 0 <= i < mem.Length && !(v6 <= i < v6 + 16 * n) ==> mem[i] == old(mem[i])
  {
    hide And, Or, LE, BEBytes, Swapped, Expected, Item, Encode, Pending, Done;
    var v5 := n * 16;
    var v16: int := v6 - 16;
    var v7: int := n - 1;
    var v2: int := n * 6 - 6;
    var v14: nat, v10: nat, v4: nat := 0, TOP, v5;
    assert Pending(mem[..], v6, d, n) && Done(mem[..], v6, n, v12, v11, d, n) by {
      DrawnIsPending(mem[..], v6, n, v12, v11, d);
    }
    while v7 != -1
      invariant -1 <= v7 < n && v2 == 6 * v7 && v4 == 16 * (v7 + 1)
      invariant Pending(mem[..], v6, d, v7 + 1)
      invariant Done(mem[..], v6, n, v12, v11, d, v7 + 1)
      invariant forall i :: 0 <= i < mem.Length && !(v6 <= i < v6 + 16 * n) ==> mem[i] == old(mem[i])
      invariant v10 == TOP || v14 == LE(BEBytes(v10, 6))
    {
      if v2 + 8 > v5 {
        assert false;
      }
      var v1: nat := v7 / 64 + v11;
      var v3 := if v1 > 0xF_FFFF then 1 else 0;
      var v0 := v12 + v3;
      v10, v14 := Retime(v0, v10, v14);
      var v8 := v4 - 16;
      if v4 > v5 || v4 < v8 {
        assert false;
      }
      ghost var was := mem[..];
      PendingItem(was, v6, d, v7);
      ExpectedIs(v12, v11, d, v7);
      WriteItem(mem, v6 + v2, v16 + v4, v14, v1, v3, v7, v12);
      OneItemBack(was, mem[..], v6, n, v12, v11, d, v7);
      v2 := v2 - 6;
      v4 := v8;
      v7 := v7 - 1;
    }
    AllDone(mem[..], v6, n, v12, v11, d);
  }

  /** The byte-swapped timestamp, computed anew only when the millisecond has changed. */
  method Retime(v0: nat, v10: nat, v14: nat) returns (millis: nat, swapped: nat)
    requires v0 < 0x1_0000_0000_0000 && (v10 == TOP || v14 == LE(BEBytes(v10, 6)))
    ensures millis == v0 && swapped == LE(BEBytes(v0, 6))
  {
    hide Swapped, LE, BEBytes;
    millis, swapped := v10, v14;
    if v0 != v10 {
      SwappedMillis(v0);
      swapped := Swapped(v0);
      millis := v0;
    }
  }

  lemma DrawnIsPending(m: seq<byte>, base: nat, n: nat, ms: nat, step: nat, d: seq<byte>)
    requires 0 < n && ms <= MAX_MILLIS && step + (n - 1) / 64 < 2 * STEPS
    requires base + 6 * n + 4 <= |m| && m[base..base + 6 * n + 4] == d
    ensures Pending(m, base, d, n) && Done(m, base, n, ms, step, d, n)
  {
    assert m[base..base + 6 * n] == d[..6 * n];
  }

  lemma PendingItem(m: seq<byte>, base: nat, d: seq<byte>, k: nat)
    requires Pending(m, base, d, k + 1)
    ensures 6 * k + 6 <= |d| && base + 6 * k + 6 <= |m|
    ensures m[base + 6 * k..base + 6 * k + 6] == d[6 * k..6 * k + 6]
  {
    assert m[base + 6 * k..base + 6 * k + 6] == m[base..base + 6 * (k + 1)][6 * k..];
  }

  lemma AllDone(m: seq<byte>, base: nat, n: nat, ms: nat, step: nat, d: seq<byte>)
    requires 0 < n && ms <= MAX_MILLIS && step + (n - 1) / 64 < 2 * STEPS && 6 * n <= |d|
    requires Done(m, base, n, ms, step, d, 0)
    ensures forall i :: 0 <= i < n ==> Item(m, base, i) == Expected(ms, step, d, i)
  {
  }

  /** The random bytes of the first `k` items are still where they were drawn. */
  ghost predicate Pending(m: seq<byte>, base: nat, d: seq<byte>, k: nat) {
    base + 6 * k <= |m| && 6 * k <= |d| && m[base..base + 6 * k] == d[..6 * k]
  }

  /** The items from `k` on are laid out. */
  ghost predicate Done(m: seq<byte>, base: nat, n: nat, ms: nat, step: nat, d: seq<byte>, k: nat)
    requires 0 < n && ms <= MAX_MILLIS && step + (n - 1) / 64 < 2 * STEPS && 6 * n <= |d|
  {
    forall i :: k <= i < n ==> Item(m, base, i) == Expected(ms, step, d, i)
  }

  /** Laying out item `k` spoils neither the random bytes before it nor the items after it. */
  lemma OneItemBack(m: seq<byte>, m': seq<byte>, base: nat, n: nat, ms: nat, step: nat, d: seq<byte>, k: nat)
    requires k < n && ms <= MAX_MILLIS && step + (n - 1) / 64 < 2 * STEPS && 6 * n <= |d|
    requires |m| == |m'| && base + 16 * n <= |m|
    requires forall j :: 0 <= j < |m| && !(base + 16 * k <= j < base + 16 * k + 16) ==> m'[j] == m[j]
    requires m'[base + 16 * k..base + 16 * k + 16] == Expected(ms, step, d, k)
    requires Pending(m, base, d, k + 1) && Done(m, base, n, ms, step, d, k + 1)
    ensures Pending(m', base, d, k) && Done(m', base, n, ms, step, d, k)
  {
    hide Expected;
    assert m'[base..base + 6 * k] == m[base..base + 6 * (k + 1)][..6 * k];
    forall i | k < i < n
      ensures Item(m', base, i) == Item(m, base, i)
    {
    }
  }

  lemma ExpectedIs(ms: nat, step: nat, d: seq<byte>, i: nat)
    requires ms <= MAX_MILLIS && step + i / 64 < 2 * STEPS && 6 * i + 6 <= |d|
    ensures Expected(ms, step, d, i) == Encode(Mint((ms + 1) * STEPS + (i / 64 + step), i % 64, d[6 * i..6 * i + 6]))
  {
  }

  /** One item: the word read at `from` moves up to the random bytes, and the counter of step
      `v1` and index `v7` goes below it. */
  method WriteItem(mem: array<byte>, from: nat, v17: nat, v14: nat, v1: nat, v3: nat, v7: nat, ghost v12: nat)
    requires from + 8 <= mem.Length && v17 + 16 <= mem.Length
    requires v12 <= MAX_MILLIS && v1 < 2 * STEPS && v3 == if v1 > 0xF_FFFF then 1 else 0
    requires v14 == LE(BEBytes(v12 + v3, 6))
    modifies mem
    ensures mem[v17..v17 + 16] == Encode(Mint((v12 + 1) * STEPS + v1, v7 % 64, old(mem[from..from + 6])))
    ensures forall i :: 0 <= i < mem.Length && !(v17 <= i < v17 + 16) ==> mem[i] == old(mem[i])
  {
    hide And, Or, Encode, LE, BEBytes, LEBytes, VariantAndLast, FirstHalf;
    ghost var s := mem[from..from + 8];
    var t15 := Load(mem, from, 8);
    var t17 := U64(t15 * 0x1_0000);
    var v4 := v1 * 64;
    var v8 := if v3 != 0 then v4 - 0x400_0000 else v4;
    SubJoins(v8, v7);
    var c := Or(v8, And(v7, 63));
    Halves(s, v14, v12, v1, v7);
    Store(mem, v17 + 8, 8, Or(t17, VariantAndLast(c)));
    Store(mem, v17, 8, FirstHalf(v14, v8));
    assert mem[v17..v17 + 16] == LEBytes(FirstHalf(v14, v8), 8) + LEBytes(Or(t17, VariantAndLast(c)), 8);
    assert s[..6] == old(mem[from..from + 6]);
  }

  /** The two words stored for an item are the item's sixteen bytes. */
  lemma Halves(s: seq<byte>, v14: nat, v12: nat, v1: nat, v7: nat)
    requires |s| == 8 && v12 <= MAX_MILLIS && v1 < 2 * STEPS
    requires v14 == LE(BEBytes(v12 + if v1 > 0xF_FFFF then 1 else 0, 6))
    ensures var v8 := if v1 > 0xF_FFFF then v1 * 64 - 0x400_0000 else v1 * 64;
      LEBytes(FirstHalf(v14, v8), 8) + LEBytes(Or(U64(LE(s) * 0x1_0000), VariantAndLast(v8 + v7 % 64)), 8)
      == Encode(Mint((v12 + 1) * STEPS + v1, v7 % 64, s[..6]))
  {
    hide And, Or, LE, BEBytes, LEBytes, VariantAndLast, FirstHalf, U64, Millis, Mint.Counter;
    var ms := v12 + if v1 > 0xF_FFFF then 1 else 0;
    var v8 := if v1 > 0xF_FFFF then v1 * 64 - 0x400_0000 else v1 * 64;
    var c := v8 + v7 % 64;
    SameTop(if v1 > 0xF_FFFF then v1 - STEPS else v1, v7 % 64);
    FirstStored(v14, ms, v8, c);
    SecondStored(s, c);
    SplitPosition(v12, v1, v7 % 64, s[..6]);
    assert CounterBytes(c) == CounterBytes(c)[..2] + CounterBytes(c)[2..];
  }

  lemma FirstStored(v14: nat, ms: nat, v8: nat, c: nat)
    requires v14 == LE(BEBytes(ms, 6)) && c < 0x400_0000
    requires v8 / 0x40_0000 % 16 == c / 0x40_0000 && ToByte(v8 / 0x4000) == ToByte(c / 0x4000)
    ensures LEBytes(FirstHalf(v14, v8), 8) == BEBytes(ms, 6) + CounterBytes(c)[..2]
  {
    hide And, Or, LE, BEBytes, LEBytes, FirstHalf;
    var f := BEBytes(ms, 6) + [0x70 + v8 / 0x40_0000 % 16, ToByte(v8 / 0x4000)];
    FirstHalfBytes(v14, ms, v8);
    StoreThenRead(f);
  }

  lemma SecondStored(s: seq<byte>, c: nat)
    requires |s| == 8
    ensures LEBytes(Or(U64(LE(s) * 0x1_0000), VariantAndLast(c)), 8) == CounterBytes(c)[2..] + s[..6]
  {
    hide And, Or, LE, LEBytes, VariantAndLast, U64;
    SecondHalfBytes(s, c);
    StoreThenRead([0x80 + c / 0x100 % 0x40, ToByte(c)] + s[..6]);
  }

  /** The six bits of the index do not reach the bytes above them. */
  lemma SameTop(x: nat, sub: nat)
    requires x < STEPS && sub < 64
    ensures var c := x * 64 + sub;
      x * 64 / 0x40_0000 % 16 == c / 0x40_0000 && ToByte(x * 64 / 0x4000) == ToByte(c / 0x4000)
  {
    NoCarry(x, sub);
  }
}
