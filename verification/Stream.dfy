/** The version 7 stream: one word that counts steps. The word of a stream whose last step is
    `step` of millisecond `ms` is `(ms + 1) * STEPS + step`, so the words of consecutive steps
    are consecutive numbers, across the end of a millisecond too. A number read this way is
    called a position. */
module Stream {

  const STEPS: nat := 0x10_0000
  const CLAMP: nat := 11000
  const DRIFT: nat := 1000
  const LAST_MILLIS: nat := 0xFFF_FFFF_FFFE
  const TOP: nat := 0xFFFF_FFFF_FFFF_FFFF

  /** The millisecond of a position; -1 for the word of a stream never used. */
  function Millis(p: nat): int {
    p / STEPS - 1
  }

  /** The furthest millisecond a split may enter for a call at `t`. */
  function Ceiling(t: nat): nat {
    if t + DRIFT <= LAST_MILLIS then t + DRIFT else LAST_MILLIS
  }

  /** What a call is told: the first position of its block, and whether the call moved the
      stream to its own millisecond; or that it runs outside the stream; or that the stream
      cannot hold it. */
  datatype Outcome = Reserved(first: nat, advance: bool) | OutOfStream | Exhausted

  /** A call for `steps` consecutive steps at `millis`; `seed` is the step it starts at if it
      moves the stream forward. */
  datatype Request = Request(millis: nat, steps: nat, seed: nat) {
    predicate Valid() {
      steps > 0 && seed + steps <= STEPS
    }
  }

  function Reserve(w: nat, r: Request): Outcome {
    if r.millis > LAST_MILLIS then OutOfStream
    else if Millis(w) < r.millis then Reserved((r.millis + 1) * STEPS + r.seed, true)
    else if Millis(w) > r.millis + CLAMP then OutOfStream
    else if Millis(w + r.steps) == Millis(w) || Millis(w + r.steps) <= Ceiling(r.millis) then Reserved(w + 1, false)
    else Exhausted
  }

  type Word = w: nat | w <= TOP

  /** The word after a call: the last position of its block, or the word it found. */
  function After(w: Word, r: Request): (w': Word)
    requires r.Valid()
    ensures w <= w'
  {
    match Reserve(w, r)
    case Reserved(first, _) => first + r.steps - 1
    case _ => w
  }

  ghost predicate AllValid(rs: seq<Request>) {
    forall i :: 0 <= i < |rs| ==> rs[i].Valid()
  }

  /** Every block lies wholly past the word it was reserved from and inside the 64-bit word. */
  lemma BlockIsNew(w: Word, r: Request)
    requires r.Valid()
    ensures Reserve(w, r).Reserved? ==> w < Reserve(w, r).first <= After(w, r)
    ensures Reserve(w, r).Reserved? && !Reserve(w, r).advance ==> Reserve(w, r).first == w + 1
  {
  }

  /** Where a call lands, in plain numbers, for a stream at step `w % 2^20` of millisecond `m`:
      past 2^44 - 2, or more than 11000 ms behind, out of the stream; ahead of it, at its own
      timestamp; else on the next step, clamped, as long as the millisecond has the steps, or
      the next one is within 1000 ms and not past 2^44 - 2; and refused only if it is. */
  lemma WhereACallLands(w: Word, r: Request)
    requires r.Valid()
    ensures var m, t := w / 0x10_0000 - 1, r.millis;
      Reserve(w, r) ==
        if t > 17592186044414 || m > t + 11000 then OutOfStream
        else if m < t then Reserved((t + 1) * 0x10_0000 + r.seed, true)
        else if w % 0x10_0000 + r.steps < 0x10_0000 then Reserved(w + 1, false)
        else if m < t + 1000 && m < 17592186044414 then Reserved(w + 1, false)
        else Exhausted
    ensures After(w, r) == if Reserve(w, r).Reserved? then Reserve(w, r).first + r.steps - 1 else w
  {
    var step := w % 0x10_0000;
    assert w == (w / 0x10_0000) * 0x10_0000 + step;
    if step + r.steps < 0x10_0000 {
      assert Millis(w + r.steps) == Millis(w);
    } else {
      assert Millis(w + r.steps) == Millis(w) + 1;
    }
  }

  // ---- Runs -----------------------------------------------------------------------------------

  function Run(w: Word, rs: seq<Request>): (w': Word)
    requires AllValid(rs)
    ensures w <= w'
    decreases |rs|
  {
    if rs == [] then w else
      Run(After(w, rs[0]), rs[1..])
  }

  lemma {:induction false} RunConcat(w: Word, rs: seq<Request>, qs: seq<Request>)
    requires AllValid(rs) && AllValid(qs)
    ensures AllValid(rs + qs)
    ensures Run(w, rs + qs) == Run(Run(w, rs), qs)
    decreases |rs|
  {
    if rs == [] {
      assert rs + qs == qs;
    } else {
      RunConcat(After(w, rs[0]), rs[1..], qs);
      assert (rs + qs)[1..] == rs[1..] + qs;
    }
  }

  /** The positions a run hands out, in reservation order. */
  function Positions(w: Word, rs: seq<Request>): seq<nat>
    requires AllValid(rs)
    decreases |rs|
  {
    if rs == [] then [] else
      Block(w, rs[0]) + Positions(After(w, rs[0]), rs[1..])
  }

  function Block(w: Word, r: Request): seq<nat>
    requires r.Valid()
  {
    match Reserve(w, r)
    case Reserved(first, _) => seq(r.steps, j requires 0 <= j => first + j)
    case _ => []
  }

  ghost predicate Increasing(s: seq<nat>) {
    forall i, j :: 0 <= i < j < |s| ==> s[i] < s[j]
  }

  /** Over every run, no position is handed out twice and each is later than all before it. */
  lemma {:induction false} PositionsIncrease(w: Word, rs: seq<Request>)
    requires AllValid(rs)
    ensures Increasing(Positions(w, rs))
    ensures forall i :: 0 <= i < |Positions(w, rs)| ==> w < Positions(w, rs)[i] <= Run(w, rs)
    decreases |rs|
  {
    if rs != [] {
      BlockIsNew(w, rs[0]);
      var w' := After(w, rs[0]);
      PositionsIncrease(w', rs[1..]);
      assert forall i :: 0 <= i < |Block(w, rs[0])| ==> w < Block(w, rs[0])[i] <= w';
    }
  }

  /** A run with one more call at its end. */
  lemma {:induction false} OneMoreRequest(w: Word, s: int, rs: seq<Request>, r: Request)
    requires AllValid(rs) && r.Valid()
    ensures AllValid(rs + [r])
    ensures var last := Run(w, rs);
      var o := Reserve(last, r);
      && Run(w, rs + [r]) == After(last, r)
      && Positions(w, rs + [r]) == Positions(w, rs) + (if o.Reserved? then seq(r.steps, j requires 0 <= j => o.first + j) else [])
      && Newest(w, s, rs + [r]) == (if o.Reserved? && r.millis > Newest(w, s, rs) then r.millis else Newest(w, s, rs))
      && Consumed(w, rs + [r]) == Consumed(w, rs) + (if o.Reserved? then r.steps else 0)
      && (NoAdvance(w, rs + [r]) <==> NoAdvance(w, rs) && (o.Reserved? ==> !o.advance))
    decreases |rs|
  {
    hide Reserve;
    if rs == [] {
      assert rs + [r] == [r] && [r][1..] == [];
    } else {
      var s' := if Reserve(w, rs[0]).Reserved? && s < rs[0].millis then rs[0].millis else s;
      OneMoreRequest(After(w, rs[0]), s', rs[1..], r);
      assert (rs + [r])[1..] == rs[1..] + [r];
    }
  }

  // ---- Drift ----------------------------------------------------------------------------------

  /** The newest timestamp of any successful reservation of a run, given the newest before. */
  function Newest(w: Word, s: int, rs: seq<Request>): int
    requires AllValid(rs)
    decreases |rs|
  {
    if rs == [] then s else
      var s' := if Reserve(w, rs[0]).Reserved? && s < rs[0].millis then rs[0].millis else s;
      Newest(After(w, rs[0]), s', rs[1..])
  }

  /** The stream's millisecond is never behind the newest timestamp it reserved at, and never
      more than 1000 ms ahead of it. */
  lemma {:induction false} DriftIsBounded(w: Word, s: int, rs: seq<Request>)
    requires AllValid(rs)
    requires s <= Millis(w) <= s + DRIFT
    ensures Newest(w, s, rs) <= Millis(Run(w, rs)) <= Newest(w, s, rs) + DRIFT
    decreases |rs|
  {
    if rs != [] {
      var s' := if Reserve(w, rs[0]).Reserved? && s < rs[0].millis then rs[0].millis else s;
      DriftIsBounded(After(w, rs[0]), s', rs[1..]);
    }
  }

  /** The ten-second guarantee: after any run of a new stream, a call at most 10 s behind the
      newest reserved timestamp is never minted out of stream. */
  lemma TenSecondsStayInStream(rs: seq<Request>, r: Request)
    requires AllValid(rs) && r.Valid()
    requires Newest(0, -1, rs) - 10000 <= r.millis <= LAST_MILLIS
    ensures !Reserve(Run(0, rs), r).OutOfStream?
  {
    DriftIsBounded(0, -1, rs);
  }

  // ---- Embedded milliseconds --------------------------------------------------------------------

  /** The milliseconds of a block for a call at `t`: exactly `t` if it moved the stream; else
      the stream's own, at most 11 s ahead, or the next one, at most 1 s ahead. */
  lemma EmbeddedMillis(w: Word, r: Request, j: nat)
    requires r.Valid() && j < r.steps && Reserve(w, r).Reserved?
    ensures var m := Millis(Reserve(w, r).first + j);
      && r.millis <= m <= r.millis + CLAMP
      && m <= LAST_MILLIS
      && (Reserve(w, r).advance ==> m == r.millis)
      && (!Reserve(w, r).advance ==> m == Millis(w) || (m == Millis(w) + 1 && m <= r.millis + DRIFT && m <= LAST_MILLIS))
  {
  }

  // ---- A batch is its single calls ------------------------------------------------------------------

  /** Single-step calls at `t`, each with a seed of its own. */
  ghost predicate SinglesAt(rs: seq<Request>, t: nat) {
    forall i :: 0 <= i < |rs| ==> rs[i].Valid() && rs[i].millis == t && rs[i].steps == 1
  }

  /** What calls made one after another, and stopped at the first that is not reserved, amount
      to together. */
  function OneByOne(w: Word, rs: seq<Request>): Outcome
    requires AllValid(rs) && rs != []
    decreases |rs|
  {
    match Reserve(w, rs[0])
    case Reserved(first, advance) =>
      if |rs| == 1 then Reserved(first, advance) else
        (match OneByOne(After(w, rs[0]), rs[1..])
         case Reserved(_, _) => Reserved(first, advance)
         case failed => failed)
    case failed => failed
  }

  /** A block of k steps is k single reservations at its timestamp, the first with its seed where
      the seed counts and the others with any: reserved when all of them are, with the same
      positions and the same word after, and refused for the reason the first refused one is. */
  lemma {:induction false} BatchIsSingles(w: Word, r: Request, rs: seq<Request>)
    requires r.Valid() && SinglesAt(rs, r.millis) && |rs| == r.steps
    requires rs[0].seed == r.seed || Millis(w) >= r.millis
    ensures OneByOne(w, rs) == Reserve(w, r)
    ensures Reserve(w, r).Reserved? ==> Run(w, rs) == After(w, r) && Positions(w, rs) == Block(w, r)
    decreases |rs|
  {
    hide Reserve, Millis;
    if r.steps == 1 {
      OnlyOne(w, r, rs);
    } else {
      OneThenTheRest(w, r, rs[0]);
      if Reserve(w, rs[0]).Reserved? {
        BatchIsSingles(After(w, rs[0]), r.(steps := r.steps - 1), rs[1..]);
      }
    }
  }

  lemma OnlyOne(w: Word, r: Request, rs: seq<Request>)
    requires r.Valid() && r.steps == 1 && SinglesAt(rs, r.millis) && |rs| == 1
    requires rs[0].seed == r.seed || Millis(w) >= r.millis
    ensures OneByOne(w, rs) == Reserve(w, r)
    ensures Reserve(w, r).Reserved? ==> Run(w, rs) == After(w, r) && Positions(w, rs) == Block(w, r)
  {
    assert rs[1..] == [] && Reserve(w, rs[0]) == Reserve(w, r);
    hide Reserve, Millis;
  }

  lemma OneThenTheRest(w: Word, r: Request, one: Request)
    requires r.Valid() && r.steps > 1 && one.Valid() && one.millis == r.millis && one.steps == 1
    requires one.seed == r.seed || Millis(w) >= r.millis
    ensures var rest, o := r.(steps := r.steps - 1), Reserve(w, one);
      if o.Reserved?
      then
        var w' := After(w, one);
        && o.first == w' && Millis(w') >= r.millis
        && Reserve(w, r) == (if Reserve(w', rest).Reserved? then o else Reserve(w', rest))
        && (Reserve(w, r).Reserved? ==> After(w, r) == After(w', rest) && Block(w, r) == [w'] + Block(w', rest))
      else Reserve(w, r) == o
  {
  }

  /** Even a block of all 2^20 steps of a millisecond crosses at most one millisecond's end. */
  lemma BlockSpansTwoMillis(w: Word, r: Request, j: nat)
    requires r.Valid() && j < r.steps && Reserve(w, r).Reserved?
    ensures var first := Reserve(w, r).first; Millis(first) <= Millis(first + j) <= Millis(first) + 1
  {
  }

  // ---- Capacity ---------------------------------------------------------------------------------

  /** The steps from where a call moves the stream to, up to the last it may split into. */
  function Capacity(r: Request): int
    requires r.millis <= LAST_MILLIS
  {
    (Ceiling(r.millis) - r.millis + 1) * STEPS - r.seed
  }

  /** Single calls at one timestamp, with any seeds, that begin by moving the stream: call `i` is
      reserved if `i` is below the capacity, and from there on every one is refused as
      exhausted. With a seed below 2^19, the first 2^19 + 1 calls get the timestamp itself. */
  lemma CapacityIsExact(w: Word, rs: seq<Request>, i: nat)
    requires i < |rs| && SinglesAt(rs, rs[0].millis) && Millis(w) < rs[0].millis <= LAST_MILLIS
    ensures AllValid(rs[..i])
    ensures if i < Capacity(rs[0]) then Reserve(Run(w, rs[..i]), rs[i]).Reserved? else Reserve(Run(w, rs[..i]), rs[i]) == Exhausted
    ensures rs[0].millis + DRIFT <= LAST_MILLIS ==> Capacity(rs[0]) == (STEPS - rs[0].seed) + DRIFT * STEPS
    ensures rs[0].seed < STEPS / 2 && i < STEPS / 2 + 1 ==>
      var o := Reserve(Run(w, rs[..i]), rs[i]); o.Reserved? && Millis(o.first) == rs[0].millis
  {
    if i > 0 {
      RunOfSingles(w, rs, i);
    }
  }

  lemma {:induction false} RunOfSingles(w: Word, rs: seq<Request>, i: nat)
    requires 0 < i <= |rs| && SinglesAt(rs, rs[0].millis) && Millis(w) < rs[0].millis <= LAST_MILLIS
    ensures AllValid(rs[..i])
    ensures var served := if i <= Capacity(rs[0]) then i else Capacity(rs[0]);
      Run(w, rs[..i]) == (rs[0].millis + 1) * STEPS + rs[0].seed + served - 1
  {
    var now, last := rs[..i - 1], rs[i - 1..i];
    assert rs[..i] == now + last;
    RunConcat(w, now, last);
    if i == 1 {
      assert now == [];
    } else {
      RunOfSingles(w, rs, i - 1);
    }
    assert Run(Run(w, now), last) == After(Run(w, now), rs[i - 1]) by {
      assert last[1..] == [];
    }
  }

  /** Exhaustion changes nothing and ends with the millisecond: a later timestamp gets in. */
  lemma AfterExhaustion(w: Word, r: Request, next: Request)
    requires r.Valid() && next.Valid() && Reserve(w, r) == Exhausted
    requires Millis(w) < next.millis <= LAST_MILLIS
    ensures After(w, r) == w
    ensures Reserve(After(w, r), next) == Reserved((next.millis + 1) * STEPS + next.seed, true)
  {
  }

  // ---- Conservation -----------------------------------------------------------------------------

  /** No call of the run moves the stream to a new millisecond of its own. */
  ghost predicate NoAdvance(w: Word, rs: seq<Request>)
    requires AllValid(rs)
    decreases |rs|
  {
    if rs == [] then true else
      && (Reserve(w, rs[0]).Reserved? ==> !Reserve(w, rs[0]).advance)
      && NoAdvance(After(w, rs[0]), rs[1..])
  }

  function Consumed(w: Word, rs: seq<Request>): nat
    requires AllValid(rs)
    decreases |rs|
  {
    if rs == [] then 0 else
      (if Reserve(w, rs[0]).Reserved? then rs[0].steps else 0) + Consumed(After(w, rs[0]), rs[1..])
  }

  /** Between two advances the word grows by exactly the steps consumed, splits included, and the
      positions handed out are consecutive. */
  lemma {:induction false} StepsAreConserved(w: Word, rs: seq<Request>)
    requires AllValid(rs) && NoAdvance(w, rs)
    ensures Run(w, rs) == w + Consumed(w, rs)
    ensures |Positions(w, rs)| == Consumed(w, rs)
    ensures forall i :: 0 <= i < |Positions(w, rs)| ==> Positions(w, rs)[i] == w + 1 + i
    decreases |rs|
  {
    if rs != [] {
      hide Millis;
      BlockIsNew(w, rs[0]);
      StepsAreConserved(After(w, rs[0]), rs[1..]);
    }
  }

  /** What two values show, over every run: within a millisecond, the difference of their steps
      is the number of steps consumed from one to the other, whatever calls advanced before,
      between or after. */
  lemma {:induction false} StepDifferenceIsConsumption(w: Word, rs: seq<Request>, i: nat, j: nat)
    requires AllValid(rs) && i < j < |Positions(w, rs)|
    requires Millis(Positions(w, rs)[i]) == Millis(Positions(w, rs)[j])
    ensures Positions(w, rs)[j] % STEPS - Positions(w, rs)[i] % STEPS == j - i
    decreases |rs|
  {
    var b, w' := Block(w, rs[0]), After(w, rs[0]);
    var rest := Positions(w', rs[1..]);
    PositionsIncrease(w', rs[1..]);
    if i >= |b| {
      StepDifferenceIsConsumption(w', rs[1..], i - |b|, j - |b|);
    } else if j >= |b| {
      assert Positions(w, rs)[j] == rest[j - |b|];
      FromTheWordOn(w', rs[1..], j - |b|);
    }
  }

  /** A position in the word's own millisecond is as far past the word as its place in the run. */
  lemma {:induction false} FromTheWordOn(w: Word, rs: seq<Request>, j: nat)
    requires AllValid(rs) && j < |Positions(w, rs)|
    requires Millis(Positions(w, rs)[j]) == Millis(w)
    ensures Positions(w, rs)[j] == w + 1 + j
    decreases |rs|
  {
    var b, w' := Block(w, rs[0]), After(w, rs[0]);
    PositionsIncrease(w', rs[1..]);
    BlockIsNew(w, rs[0]);
    if j >= |b| {
      assert Positions(w, rs)[j] == Positions(w', rs[1..])[j - |b|];
      FromTheWordOn(w', rs[1..], j - |b|);
    }
  }

  /** Across a split too, where the differences are adjusted for the rollover: after a first call
      that may advance, as long as none of those that follow does. */
  lemma SplitDifferenceIsConsumption(w: Word, first: Request, rs: seq<Request>, i: nat, j: nat)
    requires first.Valid() && AllValid(rs) && NoAdvance(After(w, first), rs)
    requires i < j < |Positions(w, [first] + rs)|
    requires Millis(Positions(w, [first] + rs)[j]) == Millis(Positions(w, [first] + rs)[i]) + 1
    ensures var p, q := Positions(w, [first] + rs)[i], Positions(w, [first] + rs)[j];
      (STEPS - 1 - p % STEPS) + (q % STEPS + 1) == j - i
  {
    var all := [first] + rs;
    assert all[1..] == rs;
    BlockIsNew(w, first);
    StepsAreConserved(After(w, first), rs);
  }

  /** And over every run: across a millisecond's end the rollover-adjusted difference is never
      less than the steps consumed, and it is exactly that just when the run took both the last
      step of the one millisecond and the first of the next, as a split does. */
  lemma RolloverIsConsumptionAtASplit(w: Word, rs: seq<Request>, i: nat, j: nat)
    requires AllValid(rs) && i < j < |Positions(w, rs)|
    requires Millis(Positions(w, rs)[j]) == Millis(Positions(w, rs)[i]) + 1
    ensures var ps := Positions(w, rs);
      var rollover := (STEPS - 1 - ps[i] % STEPS) + (ps[j] % STEPS + 1);
      var end := ps[j] / STEPS * STEPS;
      && rollover >= j - i
      && (rollover == j - i <==> end - 1 in ps && end in ps)
  {
    hide Increasing, Millis, Positions;
    var ps := Positions(w, rs);
    PositionsIncrease(w, rs);
    var end := ps[j] / STEPS * STEPS;
    Rollover(ps[i], ps[j]);
    Spread(ps, i, j);
    if end - 1 in ps && end in ps {
      var k :| 0 <= k < |ps| && ps[k] == end - 1;
      var l :| 0 <= l < |ps| && ps[l] == end;
      Neighbours(ps, k, l);
      Within(w, rs, i, k);
      Within(w, rs, l, j);
    } else if ps[j] - ps[i] == j - i {
      Dense(ps, i, j, end - 1 - ps[i]);
      Dense(ps, i, j, end - ps[i]);
    }
  }

  lemma Rollover(p: nat, q: nat)
    requires Millis(q) == Millis(p) + 1
    ensures var end := q / STEPS * STEPS;
      && p <= end - 1 && end <= q && Millis(end - 1) == Millis(p) && Millis(end) == Millis(q)
      && (STEPS - 1 - p % STEPS) + (q % STEPS + 1) == q - p
  {
  }

  lemma {:induction false} Spread(ps: seq<nat>, i: nat, j: nat)
    requires Increasing(ps) && i <= j < |ps|
    ensures ps[j] - ps[i] >= j - i
    decreases j
  {
    if i < j {
      Spread(ps, i, j - 1);
    }
  }

  lemma Neighbours(ps: seq<nat>, k: nat, l: nat)
    requires Increasing(ps) && k < |ps| && l < |ps| && ps[l] == ps[k] + 1
    ensures l == k + 1
  {
    if l > k {
      Spread(ps, k, l);
    }
  }

  /** Increasing numbers as far apart as their places leave nothing out between them. */
  lemma Dense(ps: seq<nat>, i: nat, j: nat, d: nat)
    requires Increasing(ps) && i < j < |ps| && ps[j] - ps[i] == j - i && d <= j - i
    ensures ps[i] + d in ps
  {
    Spread(ps, i, i + d);
    Spread(ps, i + d, j);
    assert ps[i + d] == ps[i] + d;
  }

  lemma Within(w: Word, rs: seq<Request>, i: nat, j: nat)
    requires AllValid(rs) && i < |Positions(w, rs)| && j < |Positions(w, rs)|
    requires Positions(w, rs)[i] <= Positions(w, rs)[j] && Millis(Positions(w, rs)[i]) == Millis(Positions(w, rs)[j])
    ensures i <= j && Positions(w, rs)[j] - Positions(w, rs)[i] == j - i
  {
    PositionsIncrease(w, rs);
    if i < j {
      StepDifferenceIsConsumption(w, rs, i, j);
    }
  }

  /** What a lone value shows: if no call's seed reaches 2^19, a position at step `s` of its
      millisecond means at least the `s - (2^19 - 1) + 1` positions up to it were all consumed. */
  lemma LoneStepShowsAtLeast(rs: seq<Request>, p: nat, back: nat)
    requires AllValid(rs) && SeedsBelowHalf(rs) && p in Positions(0, rs)
    requires back <= p % STEPS - (STEPS / 2 - 1)
    ensures p - back in Positions(0, rs)
  {
    UpperHalfIsConsumed(0, rs, p, p - back);
  }

  ghost predicate SeedsBelowHalf(rs: seq<Request>) {
    forall i :: 0 <= i < |rs| ==> rs[i].seed < STEPS / 2
  }

  lemma {:induction false} UpperHalfIsConsumed(w: Word, rs: seq<Request>, p: nat, q: nat)
    requires AllValid(rs) && SeedsBelowHalf(rs) && p in Positions(w, rs)
    requires Millis(q) == Millis(p) && q <= p && q % STEPS >= STEPS / 2 - 1
    ensures q <= w || q in Positions(w, rs)
    decreases |rs|
  {
    var r, w' := rs[0], After(w, rs[0]);
    PositionsIncrease(w', rs[1..]);
    if p !in Block(w, r) {
      UpperHalfIsConsumed(w', rs[1..], p, q);
    }
    if w < q <= w' {
      InItsBlock(w, r, p, q);
    }
  }

  lemma InItsBlock(w: Word, r: Request, p: nat, q: nat)
    requires r.Valid() && r.seed < STEPS / 2
    requires w < q <= After(w, r) && q <= p && Millis(p) == Millis(q) && q % STEPS >= STEPS / 2 - 1
    requires p in Block(w, r) || p > After(w, r)
    ensures q in Block(w, r)
  {
    assert Reserve(w, r).Reserved?;
    var first := Reserve(w, r).first;
    assert first <= q;
    assert Block(w, r)[q - first] == q;
  }
}
