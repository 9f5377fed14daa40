/** Version 7 values: their byte layout (RFC 9562 sections 5.7 and 6.2), what one call of the
    generator does to the stream and returns, and the order of everything a run mints. */
module V7 {
  import opened Bits
  import opened Bytes
  import opened Stream

  const MAX_MILLIS: nat := 253402300799999
  const MAX_BATCH: nat := 0x400_0000

  const OK: nat := 0
  const RANDOM_SOURCE: nat := 1
  const OUT_OF_RANGE: nat := 2
  const TOO_LARGE: nat := 4
  const EXHAUSTED: nat := 6

  // ---- Layout -----------------------------------------------------------------------------------

  /** One value before it is laid out: its position, the six counter bits below the step, and
      its last six bytes. */
  datatype Mint = Mint(position: nat, sub: nat, tail: seq<byte>) {
    predicate Valid() {
      && STEPS <= position < 0x1_0000_0000_0000 * STEPS + STEPS
      && sub < 64 && |tail| == 6
    }

    /** The order of values: by millisecond, then by the 26-bit counter. */
    function Key(): nat {
      position * 64 + sub
    }

    function Counter(): (c: nat)
      requires Valid()
      ensures c < 0x400_0000
    {
      position % STEPS * 64 + sub
    }
  }

  /** The 26-bit counter around the version and the variant. */
  function CounterBytes(c: nat): (s: seq<byte>)
    ensures |s| == 4
  {
    [ToByte(0x70 + c / 0x40_0000), ToByte(c / 0x4000), ToByte(0x80 + c / 0x100 % 0x40), ToByte(c)]
  }

  function Encode(m: Mint): (id: seq<byte>)
    requires m.Valid()
    ensures |id| == 16
  {
    BEBytes(Millis(m.position), 6) + CounterBytes(m.Counter()) + m.tail
  }

  predicate IsV7(id: seq<byte>)
    requires |id| == 16
  {
    id[6] / 16 == 7 && id[8] / 64 == 2
  }

  /** Every value laid out is an RFC 9562 version 7, and its fields read back: the millisecond
      from its first 48 bits, the step and the six bits below it from the 26 around the version
      and the variant, and the rest. */
  lemma EncodeReads(m: Mint)
    requires m.Valid()
    ensures var id := Encode(m);
      && IsV7(id) && id[6] / 16 == 7 && id[8] / 64 == 2
      && BE(id[..6]) == Millis(m.position) == m.position / 0x10_0000 - 1
      && CounterOf(id) == m.Counter() == m.position % 0x10_0000 * 64 + m.sub
      && id[6] as nat % 16 * 0x40_0000 + id[7] as nat * 0x4000 + id[8] as nat % 64 * 0x100 + id[9] as nat == m.Counter()
      && id[10..] == m.tail
  {
    var id, c := Encode(m), m.Counter();
    assert id[..6] == BEBytes(Millis(m.position), 6) by { Powers(); }
    ReadBE(Millis(m.position), 6) by { Powers(); }
    assert id[6..10] == CounterBytes(c);
    assert id[6] == id[6..10][0] && id[7] == id[6..10][1] && id[8] == id[6..10][2] && id[9] == id[6..10][3];
    Digits(c);
  }

  /** The 26-bit counter of a version 7 value. */
  function CounterOf(id: seq<byte>): nat
    requires |id| == 16
  {
    CounterOfBytes(id[6], id[7], id[8], id[9])
  }

  function CounterOfBytes(b6: nat, b7: nat, b8: nat, b9: nat): nat {
    b6 % 16 * 0x40_0000 + b7 * 0x4000 + b8 % 64 * 0x100 + b9
  }

  lemma CounterOrder(c: nat, d: nat)
    requires c < d < 0x400_0000
    ensures Below(CounterBytes(c), CounterBytes(d))
  {
    Digits(c);
    Digits(d);
    DigitOrder(c / 0x40_0000, c / 0x4000 % 0x100, c / 0x100 % 0x40, c % 0x100,
               d / 0x40_0000, d / 0x4000 % 0x100, d / 0x100 % 0x40, d % 0x100);
    FirstDifferentByte(CounterBytes(c), CounterBytes(d));
  }

  lemma Digits(c: nat)
    requires c < 0x400_0000
    ensures c == c / 0x40_0000 * 0x40_0000 + c / 0x4000 % 0x100 * 0x4000 + c / 0x100 % 0x40 * 0x100 + c % 0x100
    ensures CounterBytes(c) == [0x70 + c / 0x40_0000, c / 0x4000 % 0x100, 0x80 + c / 0x100 % 0x40, c % 0x100]
  {
    var p := c / 0x100;
    var q := p / 0x40;
    assert q == c / 0x4000;
    assert q / 0x100 == c / 0x40_0000;
    assert c == 0x100 * (0x40 * (0x100 * (q / 0x100) + q % 0x100) + p % 0x40) + c % 0x100;
  }

  lemma FirstDifferentByte(s: seq<byte>, t: seq<byte>)
    requires |s| == |t| == 4
    requires s[0] < t[0] || (s[0] == t[0] && (s[1] < t[1] || (s[1] == t[1] && (s[2] < t[2] || (s[2] == t[2] && s[3] < t[3])))))
    ensures Below(s, t)
  {
    var i := if s[0] < t[0] then 0 else if s[1] < t[1] then 1 else if s[2] < t[2] then 2 else 3;
    assert s[..i] == t[..i];
    assert s[i] < t[i];
  }

  lemma DigitOrder(a: nat, b: nat, c: nat, d: nat, a': nat, b': nat, c': nat, d': nat)
    requires b < 0x100 && c < 0x40 && d < 0x100 && b' < 0x100 && c' < 0x40 && d' < 0x100
    requires a * 0x40_0000 + b * 0x4000 + c * 0x100 + d < a' * 0x40_0000 + b' * 0x4000 + c' * 0x100 + d'
    ensures a < a' || (a == a' && (b < b' || (b == b' && (c < c' || (c == c' && d < d')))))
  {
  }

  /** The bytes of two values read left to right compare as their positions and counters do,
      whatever their random bytes are. */
  lemma EncodeOrder(a: Mint, b: Mint)
    requires a.Valid() && b.Valid() && a.Key() < b.Key()
    ensures Below(Encode(a), Encode(b))
  {
    Powers();
    var x, y := Millis(a.position), Millis(b.position);
    BelowIsLess(x, y, 6);
    if x == y {
      CounterOrder(a.Counter(), b.Counter());
    }
    BelowConcat(BEBytes(x, 6), BEBytes(y, 6), CounterBytes(a.Counter()), CounterBytes(b.Counter()));
    BelowConcat(BEBytes(x, 6) + CounterBytes(a.Counter()), BEBytes(y, 6) + CounterBytes(b.Counter()), a.tail, b.tail);
  }

  // ---- One call ---------------------------------------------------------------------------------

  /** What the random source gave a call: nothing, or as many bytes as the call asked for. */
  datatype Draw = Failed | Drawn(data: seq<byte>)

  datatype Call =
    | Single(millis: nat, draw: Draw)
    | Batch(millis: nat, count: nat, draw: Draw)
  {
    predicate Valid() {
      draw.Drawn? ==> |draw.data| == if Single? then 11 else 6 * count + 4
    }
  }

  datatype Result = Result(code: nat, word: Word, mints: seq<Mint>, inStream: bool)

  /** A single call's 19-bit seed, from bytes 1 to 3 of its draw. */
  function SingleSeed(d: seq<byte>): (seed: nat)
    requires |d| == 11
    ensures seed < STEPS / 2
  {
    LEBound(d[1..4]);
    Powers();
    LE(d[1..4]) / 32
  }

  function BlockSteps(count: nat): nat {
    (count + 63) / 64
  }

  /** A batch's seed, from the last four bytes of its draw: below 2^19, and low enough that the
      whole batch fits its millisecond. */
  function BatchSeed(count: nat, d: seq<byte>): nat
    requires 0 < count <= MAX_BATCH && |d| == 6 * count + 4
  {
    var room := STEPS - BlockSteps(count);
    LE(d[6 * count..]) * ((if room < STEPS / 2 - 1 then room else STEPS / 2 - 1) + 1) / TWO32
  }

  lemma BatchSeedFits(count: nat, d: seq<byte>)
    requires 0 < count <= MAX_BATCH && |d| == 6 * count + 4
    ensures BatchSeed(count, d) + BlockSteps(count) <= STEPS
    ensures BatchSeed(count, d) < STEPS / 2
  {
    LEBound(d[6 * count..]);
    Powers();
    var room := STEPS - BlockSteps(count);
    var m := (if room < STEPS / 2 - 1 then room else STEPS / 2 - 1) + 1;
    var r := LE(d[6 * count..]);
    ScaleBelow(r, m);
  }

  lemma ScaleBelow(r: nat, m: nat)
    requires r < TWO32 && m > 0
    ensures r * m / TWO32 < m
  {
    assert r * m < TWO32 * m;
  }

  /** The values of a block: 64 to a step in a batch, one in a single call. */
  function SingleMint(position: nat, d: seq<byte>): Mint
    requires |d| == 11
  {
    Mint(position, d[4] % 64, d[5..])
  }

  function BatchMint(first: nat, d: seq<byte>, i: nat): Mint
    requires 6 * i + 6 <= |d|
  {
    Mint(first + i / 64, i % 64, d[6 * i..6 * i + 6])
  }

  function BatchMints(first: nat, d: seq<byte>, count: nat): (ms: seq<Mint>)
    requires |d| == 6 * count + 4
    ensures |ms| == count
    ensures forall i :: 0 <= i < count ==> ms[i] == BatchMint(first, d, i)
  {
    seq(count, i requires 0 <= i < count => BatchMint(first, d, i))
  }

  function Request1(c: Call): (r: Request)
    requires c.Single? && c.Valid() && c.draw.Drawn?
    ensures r.Valid() && r.seed < STEPS / 2
  {
    Request(c.millis, 1, SingleSeed(c.draw.data))
  }

  function RequestN(c: Call): (r: Request)
    requires c.Batch? && c.Valid() && c.draw.Drawn? && 0 < c.count <= MAX_BATCH
    ensures r.Valid() && r.seed < STEPS / 2
  {
    BatchSeedFits(c.count, c.draw.data);
    Request(c.millis, BlockSteps(c.count), BatchSeed(c.count, c.draw.data))
  }

  /** A call outside the stream takes its own millisecond and its seed, and reserves nothing. */
  function Start(o: Outcome, r: Request): nat {
    match o
    case Reserved(first, _) => first
    case _ => (r.millis + 1) * STEPS + r.seed
  }

  function Perform(w: Word, c: Call): Result
    requires c.Valid()
  {
    if c.millis > MAX_MILLIS then Result(OUT_OF_RANGE, w, [], false)
    else if c.Batch? && c.count == 0 then Result(OK, w, [], false)
    else if c.Batch? && c.count > MAX_BATCH then Result(TOO_LARGE, w, [], false)
    else if c.draw.Failed? then Result(RANDOM_SOURCE, w, [], false)
    else
      var r := if c.Single? then Request1(c) else RequestN(c);
      var o := Reserve(w, r);
      if o == Exhausted then Result(EXHAUSTED, w, [], false)
      else
        var mints := if c.Single? then [SingleMint(Start(o, r), c.draw.data)]
                     else BatchMints(Start(o, r), c.draw.data, c.count);
        Result(OK, After(w, r), mints, o.Reserved?)
  }

  /** What every call promises on its own: a failure and an out-of-stream call leave the
      stream alone; a value embeds the supplied millisecond or one at most 11 s later, and an
      out-of-stream call, a whole batch included, embeds the supplied one exactly. */
  lemma CallPromises(w: Word, c: Call)
    requires c.Valid()
    ensures var res := Perform(w, c);
      && (res.inStream ==> res.code == OK)
      && (!res.inStream ==> res.word == w)
      && (res.code != OK ==> res.mints == [])
      && (res.code == OK ==> |res.mints| == if c.Single? then 1 else c.count)
      && (forall i :: 0 <= i < |res.mints| ==> ValidAt(res.mints[i], c.millis, if res.inStream then CLAMP else 0))
  {
    var res := Perform(w, c);
    if res.mints != [] {
      var r := if c.Single? then Request1(c) else RequestN(c);
      forall i | 0 <= i < |res.mints|
        ensures ValidAt(res.mints[i], c.millis, if res.inStream then CLAMP else 0)
      {
        if res.inStream {
          EmbeddedMillis(w, r, i / 64);
        }
      }
    }
  }

  /** Two single calls, one right after the other, that mint in the stream in one millisecond have
      counters 1 to 127 apart. */
  lemma AdjacentCounters(w: Word, c: Call, d: Call)
    requires c.Valid() && d.Valid() && c.Single? && d.Single?
    requires Perform(w, c).inStream && Perform(Perform(w, c).word, d).inStream
    ensures var a, b := Perform(w, c).mints, Perform(Perform(w, c).word, d).mints;
      && |a| == |b| == 1 && a[0].Valid() && b[0].Valid()
      && (Millis(a[0].position) == Millis(b[0].position) ==> 1 <= b[0].Counter() - a[0].Counter() <= 127)
  {
    CallPromises(w, c);
    CallPromises(Perform(w, c).word, d);
    BlockIsNew(Perform(w, c).word, Request1(d));
  }

  /** A timestamp is out of range exactly when it is past the year 9999, even where the 48-bit
      field would hold it. */
  lemma RangeIsTheYear9999(w: Word, c: Call)
    requires c.Valid()
    ensures Perform(w, c).code == OUT_OF_RANGE <==> c.millis > MAX_MILLIS
    ensures c.millis == 253402300800000 ==> c.millis < Pow2(48) && Perform(w, c).code == OUT_OF_RANGE
  {
    Powers();
  }

  ghost predicate ValidAt(m: Mint, t: nat, ahead: nat) {
    m.Valid() && t <= Millis(m.position) <= t + ahead
  }

  // ---- Runs of calls ------------------------------------------------------------------------------

  ghost predicate AllCallsValid(cs: seq<Call>) {
    forall i :: 0 <= i < |cs| ==> cs[i].Valid()
  }

  function WordAfter(w: Word, cs: seq<Call>): Word
    requires AllCallsValid(cs)
    decreases |cs|
  {
    if cs == [] then w else WordAfter(Perform(w, cs[0]).word, cs[1..])
  }

  /** Everything a run mints from the stream, in reservation order and, inside a batch, in
      index order. */
  function StreamMints(w: Word, cs: seq<Call>): seq<Mint>
    requires AllCallsValid(cs)
    decreases |cs|
  {
    if cs == [] then [] else
      var res := Perform(w, cs[0]);
      (if res.inStream then res.mints else []) + StreamMints(res.word, cs[1..])
  }

  /** A run with one more call at its end. */
  lemma {:induction false} OneMoreCall(w: Word, cs: seq<Call>, c: Call)
    requires AllCallsValid(cs) && c.Valid()
    ensures AllCallsValid(cs + [c])
    ensures var res := Perform(WordAfter(w, cs), c);
      && WordAfter(w, cs + [c]) == res.word
      && StreamMints(w, cs + [c]) == StreamMints(w, cs) + if res.inStream then res.mints else []
    decreases |cs|
  {
    hide Perform;
    if cs == [] {
      assert cs + [c] == [c] && [c][1..] == [];
    } else {
      OneMoreCall(Perform(w, cs[0]).word, cs[1..], c);
      assert (cs + [c])[1..] == cs[1..] + [c];
    }
  }

  /** Keys that increase strictly and lie between two words. */
  ghost predicate Ascending(ms: seq<Mint>, lo: nat, hi: nat) {
    && (forall i :: 0 <= i < |ms| ==> ms[i].Valid() && lo * 64 + 63 < ms[i].Key() <= hi * 64 + 63)
    && (forall i, j :: 0 <= i < j < |ms| ==> ms[i].Key() < ms[j].Key())
  }

  lemma CallAscends(w: Word, c: Call)
    requires c.Valid() && Perform(w, c).inStream
    ensures Ascending(Perform(w, c).mints, w, Perform(w, c).word)
  {
    var res := Perform(w, c);
    CallPromises(w, c);
    var r := if c.Single? then Request1(c) else RequestN(c);
    BlockIsNew(w, r);
    var first := Reserve(w, r).first;
    if c.Batch? {
      forall i | 0 <= i < |res.mints|
        ensures res.mints[i].Key() == first * 64 + i
      {
      }
    }
  }

  lemma {:induction false} RunAscends(w: Word, cs: seq<Call>)
    requires AllCallsValid(cs)
    ensures w <= WordAfter(w, cs)
    ensures Ascending(StreamMints(w, cs), w, WordAfter(w, cs))
    decreases |cs|
  {
    if cs != [] {
      var res := Perform(w, cs[0]);
      RunAscends(res.word, cs[1..]);
      if res.inStream {
        CallAscends(w, cs[0]);
      }
      CallPromises(w, cs[0]);
    }
  }

  // ---- Drift, over runs of calls ----------------------------------------------------------------

  /** The requests of the calls that get as far as the stream. */
  function Reservations(cs: seq<Call>): (rs: seq<Request>)
    requires AllCallsValid(cs)
    ensures AllValid(rs) && SeedsBelowHalf(rs)
  {
    if cs == [] then [] else Asked(cs[0]) + Reservations(cs[1..])
  }

  function Asked(c: Call): (rs: seq<Request>)
    requires c.Valid()
    ensures AllValid(rs) && SeedsBelowHalf(rs)
  {
    if c.millis > MAX_MILLIS || c.draw.Failed? then []
    else if c.Single? then [Request1(c)]
    else if 0 < c.count <= MAX_BATCH then [RequestN(c)]
    else []
  }

  lemma {:induction false} CallsAreRequests(w: Word, cs: seq<Call>)
    requires AllCallsValid(cs)
    ensures WordAfter(w, cs) == Run(w, Reservations(cs))
    decreases |cs|
  {
    if cs != [] {
      var rest := Reservations(cs[1..]);
      CallsAreRequests(Perform(w, cs[0]).word, cs[1..]);
      RunConcat(w, Asked(cs[0]), rest);
      assert Run(w, Asked(cs[0])) == Perform(w, cs[0]).word by {
        assert Asked(cs[0]) != [] ==> Asked(cs[0])[1..] == [];
      }
    }
  }

  /** The ten-second guarantee, for whole calls: after any run of calls on a new stream, whatever
      failed among them, a call whose timestamp is at most 10 s behind the newest one reserved
      and not past the stream's last mints nothing out of stream. */
  lemma TenSecondsGuarantee(cs: seq<Call>, c: Call)
    requires AllCallsValid(cs) && c.Valid()
    requires Newest(0, -1, Reservations(cs)) - 10000 <= c.millis <= LAST_MILLIS
    ensures var res := Perform(WordAfter(0, cs), c); res.mints != [] ==> res.inStream
  {
    hide Newest, Run, WordAfter, Reservations, BatchMints;
    CallsAreRequests(0, cs);
    if Asked(c) != [] {
      TenSecondsStayInStream(Reservations(cs), Asked(c)[0]);
    }
  }

  // ---- The order of a run's bytes ---------------------------------------------------------------

  function Ids(ms: seq<Mint>): seq<seq<byte>>
    requires forall i :: 0 <= i < |ms| ==> ms[i].Valid()
  {
    seq(|ms|, i requires 0 <= i < |ms| => Encode(ms[i]))
  }

  ghost predicate Sorted(ids: seq<seq<byte>>) {
    && (forall i :: 0 <= i < |ids| ==> |ids[i]| == 16)
    && (forall i, j :: 0 <= i < j < |ids| ==> Below(ids[i], ids[j]))
  }

  /** Over every run of single and batch calls, whatever their timestamps, draws and failures,
      the values of the stream are strictly increasing as 16-byte strings. */
  lemma StreamIsSorted(w: Word, cs: seq<Call>)
    requires AllCallsValid(cs)
    ensures forall i :: 0 <= i < |StreamMints(w, cs)| ==> StreamMints(w, cs)[i].Valid()
    ensures Sorted(Ids(StreamMints(w, cs)))
  {
    RunAscends(w, cs);
    var ms := StreamMints(w, cs);
    forall i, j | 0 <= i < j < |ms|
      ensures Below(Ids(ms)[i], Ids(ms)[j])
    {
      EncodeOrder(ms[i], ms[j]);
    }
  }

  lemma SortedIsDistinct(ids: seq<seq<byte>>)
    requires Sorted(ids)
    ensures forall i, j :: 0 <= i < j < |ids| ==> ids[i] != ids[j]
  {
    forall i, j | 0 <= i < j < |ids|
      ensures ids[i] != ids[j]
    {
      BelowIrreflexive(ids[i]);
    }
  }
}
