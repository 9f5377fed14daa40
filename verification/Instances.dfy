/** Instances: the translated core's linear memory, the scratch region that grows at its end, and
    the calls the binding makes on it. */
module Instances {
  import opened Bits
  import opened Bytes
  import opened Stream
  import opened V7
  import Core
  import Readers
  import SqlOrder
  import V5

  const PAGE: nat := 0x1_0000
  const OWN_PAGES: nat := 2
  const BASE_PAGES: nat := 1
  const NAME_AT: nat := 32
  const UNADDRESSABLE: nat := 3

  // ---- Page arithmetic --------------------------------------------------------------------------------

  /** The pages a scratch of `bytes` needs, if an instance can hold them beside its own two. */
  function ScratchPagesFor(bytes: nat, limit: nat): Readers.Option<nat> {
    var need := bytes / PAGE + if bytes % PAGE != 0 then 1 else 0;
    if need + OWN_PAGES > limit then Readers.None else Readers.Some(need)
  }

  /** The longest name a version 5 call takes on a host with `limit` pages. */
  function MaxName(limit: nat): int {
    var room := limit * PAGE - OWN_PAGES * PAGE - NAME_AT;
    if 0x7FFF_FFFF < room then 0x7FFF_FFFF else room
  }

  /** The pages computed are the fewest that hold the bytes. */
  lemma PagesAreFewest(bytes: nat, limit: nat, p: nat)
    ensures ScratchPagesFor(bytes, limit).Some? ==>
      var need := ScratchPagesFor(bytes, limit).value;
      bytes <= need * 65536 && (bytes <= p * 65536 ==> need <= p) && need + 2 <= limit
    ensures ScratchPagesFor(bytes, limit).None? && bytes <= p * 65536 ==> p + 2 > limit
  {
  }

  /** Every name that passes the length check fits an instance of its own, and no name that fails
      it for want of pages would. */
  lemma EveryCheckedNameFits(len: nat, limit: nat)
    requires limit >= 3
    ensures len <= MaxName(limit) ==> ScratchPagesFor(len + NAME_AT, limit).Some?
    ensures len <= 0x7FFF_FFFF ==> (len <= MaxName(limit) <==> ScratchPagesFor(len + NAME_AT, limit).Some?)
  {
  }

  /** The limit is what the guest's slices and the host's pages allow, and on a 64-bit host the
      former. No batch of a legal size is too much for such a host. */
  lemma LimitsInPlainNumbers(len: nat, limit: nat)
    requires limit >= 3
    ensures len <= MaxName(limit) <==> len <= 2147483647 && len + 32 <= (limit - 2) * 65536
    ensures MaxName(65536) == 2147483647
    ensures len <= 67108864 && limit >= 16386 ==> ScratchPagesFor(16 * len, limit).Some?
  {
  }

  // ---- The stream is alone under the lock ---------------------------------------------------------------

  function NoRivals(): Core.Rivals {
    (round: nat) => []
  }

  lemma {:induction false} Alone(w: Word, rounds: nat)
    ensures Core.Real(NoRivals())
    ensures Run(w, Core.Before(NoRivals(), rounds)) == w
  {
    if rounds > 0 {
      Alone(w, rounds - 1);
      assert Core.Before(NoRivals(), rounds) == Core.Before(NoRivals(), rounds - 1) + [];
      assert Core.Before(NoRivals(), rounds - 1) + [] == Core.Before(NoRivals(), rounds - 1);
    }
  }

  /** Writing outside the data section keeps it. */
  lemma DataKept(m: seq<byte>, m': seq<byte>)
    requires V5.HasData(m) && |m| <= |m'|
    requires forall i :: V5.DATA_AT <= i < V5.DATA_AT + 20 ==> m'[i] == m[i]
    ensures V5.HasData(m')
  {
    assert m'[V5.DATA_AT..V5.DATA_AT + 20] == m[V5.DATA_AT..V5.DATA_AT + 20];
  }

  // ---- One instance -------------------------------------------------------------------------------------

  class Instance {
    var memory: array<byte>
    var scratch: nat
    var pages: nat
    const limit: nat   // the most pages a memory can have on this host

    /** The memory is the module's own two pages, its data section as it was, and the scratch. */
    ghost predicate Valid()
      reads this, memory
    {
      && limit <= 0x1_0000
      && memory.Length == (OWN_PAGES + pages) * PAGE
      && OWN_PAGES + pages <= limit
      && scratch == OWN_PAGES * PAGE
      && V5.HasData(memory[..])
    }

    /** What is where, in plain numbers: two pages of the module's own, the scratch after them. */
    lemma LayoutOfMemory()
      requires Valid()
      ensures memory.Length == (2 + pages) * 65536 && scratch == 131072 && 2 + pages <= limit <= 65536
    {
    }

    /** A module's memory: zeros but for its data, so the stream starts unused. */
    constructor (limit: nat)
      requires 3 <= limit <= 0x1_0000
      ensures Valid() && fresh(memory) && pages == 0 && this.limit == limit
      ensures Core.WordOf(memory) == 0
    {
      this.limit := limit;
      memory := new byte[OWN_PAGES * PAGE](i => 0);
      scratch, pages := OWN_PAGES * PAGE, 0;
      new;
      CopyIn(memory, V5.DATA_AT, V5.DATA + [0x02, 0x02, 0x03]);
      assert memory[..][V5.DATA_AT..V5.DATA_AT + 20] == memory[V5.DATA_AT..V5.DATA_AT + 23][..20] == V5.DATA;
      assert memory[Core.WORD_AT..Core.WORD_AT + 8] == V5.Zeros(8);
      ZerosAreZero(8);
    }

    /** Grows the memory by whole pages, keeping what it holds: the old page count, or -1. */
    method Grow(delta: nat) returns (before: int)
      requires memory.Length % PAGE == 0 && memory.Length / PAGE < TWO64 && delta < TWO64 && limit < TWO64
      modifies this`memory
      ensures before == if delta != 0 && old(memory).Length / PAGE + delta > limit then -1 else old(memory).Length / PAGE
      ensures before < 0 || delta == 0 ==> memory == old(memory)
      ensures before >= 0 && delta != 0 ==> fresh(memory) && memory.Length == old(memory).Length + delta * PAGE
      ensures before >= 0 ==> forall i :: 0 <= i < old(memory).Length ==> memory[i] == old(memory[i])
      ensures forall i :: old(memory).Length <= i < memory.Length ==> memory[i] == 0
    {
      var pages0 := memory.Length / PAGE;
      if delta == 0 {
        return pages0;
      }
      var pages1, carry := (pages0 + delta) % TWO64, (pages0 + delta) / TWO64;
      if carry != 0 || pages1 > limit {
        return -1;
      }
      var bigger := new byte[pages1 * PAGE](i => 0);
      CopyBytes(memory, 0, bigger, 0, memory.Length);
      memory := bigger;
      before := pages0;
    }

    /** Grows the scratch to hold `bytes`; it never shrinks. */
    method EnsureScratch(bytes: nat) returns (ok: bool)
      requires Valid()
      modifies this`memory, this`pages
      ensures Valid() && old(pages) <= pages
      ensures ok == ScratchPagesFor(bytes, limit).Some?
      ensures ok ==> bytes <= pages * PAGE
      ensures ok ==> pages == if ScratchPagesFor(bytes, limit).value <= old(pages) then old(pages) else ScratchPagesFor(bytes, limit).value
      ensures !ok ==> memory == old(memory) && pages == old(pages)
      ensures memory == old(memory) || fresh(memory)
      ensures old(memory).Length <= memory.Length && Core.WordOf(memory) == old(Core.WordOf(memory))
      ensures forall i :: 0 <= i < old(memory).Length ==> memory[i] == old(memory[i])
    {
      hide Core.WordOf, V5.HasData;
      var need := ScratchPagesFor(bytes, limit);
      if need.None? {
        return false;
      }
      if need.value <= pages {
        return true;
      }
      var before := Grow(need.value - pages);
      if before < 0 {
        return false;
      }
      pages := need.value;
      DataKept(old(memory[..]), memory[..]);
      GrowthKeepsTheStream();
      ok := true;
    }

    /** Growth keeps the stream word. */
    twostate lemma GrowthKeepsTheStream()
      requires old(memory).Length <= memory.Length && old(memory).Length >= Core.BASE_SIZE
      requires forall i :: 0 <= i < old(memory).Length ==> memory[i] == old(memory[i])
      ensures Core.WordOf(memory) == old(Core.WordOf(memory))
    {
      assert memory[Core.WORD_AT..Core.WORD_AT + 8] == old(memory[Core.WORD_AT..Core.WORD_AT + 8]);
    }

    /** One value, minted under the lock: exactly what the specification of the call says. */
    method NewV7(millis: nat, e: Core.Entropy) returns (code: nat, out: seq<byte>)
      requires Valid() && pages >= BASE_PAGES
      modifies memory
      ensures var res := Perform(old(Core.WordOf(memory)), Single(millis, e.Draw(11)));
        && code == res.code && Core.WordOf(memory) == res.word
        && (code == OK ==> out == Encode(res.mints[0]))
      ensures Valid() && |out| == 16 && Core.SameBut(old(memory[..]), memory[..], scratch, scratch + 16)
    {
      hide Perform, Encode, Core.WordOf, Run, V5.HasData;
      Alone(Core.WordOf(memory), 0);
      var rounds;
      code, rounds := Core.NewV7(memory, millis, scratch, e, NoRivals());
      Alone(old(Core.WordOf(memory)), rounds);
      DataKept(old(memory[..]), memory[..]);
      out := memory[scratch..scratch + 16];
    }

    /** A batch, in a scratch grown to hold it whole: copied out only on success. */
    method NewV7Batch(millis: nat, count: nat, e: Core.Entropy, out: array<byte>) returns (code: nat)
      requires Valid() && out != memory && out.Length == 16 * count
      modifies this`memory, this`pages, memory, out
      ensures Valid() && old(pages) <= pages
      ensures var res := Perform(old(Core.WordOf(memory)), Batch(millis, count, e.Draw(6 * count + 4)));
        if ScratchPagesFor(16 * count, limit).None?
        then code == UNADDRESSABLE && Core.WordOf(memory) == old(Core.WordOf(memory))
        else
          && code == res.code && Core.WordOf(memory) == res.word
          && (code == OK ==> forall i :: 0 <= i < count ==> out[16 * i..16 * i + 16] == Encode(res.mints[i]))
      ensures code != OK ==> out[..] == old(out[..])
    {
      hide Perform, Encode, Core.WordOf, Run, V5.HasData, ScratchPagesFor, Core.Touched;
      var ok := EnsureScratch(16 * count);
      if !ok {
        return UNADDRESSABLE;
      }
      Alone(Core.WordOf(memory), 0);
      var rounds;
      label Grown:
      code, rounds := Core.NewV7Batch(memory, millis, count, scratch, e, NoRivals());
      Alone(old@Grown(Core.WordOf(memory)), rounds);
      DataKept(old@Grown(memory[..]), memory[..]);
      if code == OK {
        CopyBytes(memory, scratch, out, 0, 16 * count);
        forall i | 0 <= i < count
          ensures out[16 * i..16 * i + 16] == Core.Item(memory[..], scratch, i)
        {
        }
      }
    }

    /** A version 5 value on an instance whose scratch holds the name. */
    method RunV5(f: V5.Compression, ns: seq<byte>, name: seq<byte>) returns (out: seq<byte>)
      requires Valid() && |ns| == 16 && |name| < 0x8000_0000 && |name| + NAME_AT <= pages * PAGE
      modifies memory
      ensures Valid() && out == V5.IdOf(V5.Sha1(f, ns + name))
      ensures Core.WordOf(memory) == old(Core.WordOf(memory))
    {
      hide V5.Sha1, V5.IdOf, V5.HasData;
      CopyIn(memory, scratch, ns);
      CopyIn(memory, scratch + NAME_AT, name);
      DataKept(old(memory[..]), memory[..]);
      assert memory[scratch..scratch + 16] == ns;
      assert V5.Message(memory[..], scratch, scratch + NAME_AT, |name|) == ns + name;
      var code := V5.NewV5(f, memory, scratch, scratch + NAME_AT, |name|, scratch + 16);
      out := memory[scratch + 16..scratch + 32];
      DataKept(old(memory[..]), memory[..]);
      Core.WordKept(memory);
    }

    /** Copies a value into the scratch. */
    method Load(id: seq<byte>)
      requires Valid() && pages >= BASE_PAGES && |id| == 16
      modifies memory
      ensures Valid() && memory[scratch..scratch + 16] == id
      ensures Core.WordOf(memory) == old(Core.WordOf(memory))
    {
      hide V5.HasData, Core.WordOf;
      CopyIn(memory, scratch, id);
      DataKept(old(memory[..]), memory[..]);
      Core.WordKept(memory);
    }

    /** One of the two conversions, in the scratch. */
    method Convert(id: seq<byte>, toSql: bool) returns (out: seq<byte>, code: nat)
      requires Valid() && pages >= BASE_PAGES && |id| == 16
      modifies memory
      ensures Valid() && Core.WordOf(memory) == old(Core.WordOf(memory)) && |out| == 16
      ensures var taken := if toSql then SqlOrder.IsV7(id) else SqlOrder.IsSql(id);
        && code == (if taken then SqlOrder.OK else SqlOrder.WRONG_VERSION)
        && (taken ==> out == if toSql then SqlOrder.SqlOf(id) else SqlOrder.RfcOf(id))
    {
      hide SqlOrder.SqlOf, SqlOrder.RfcOf, SqlOrder.IsV7, SqlOrder.IsSql, V5.HasData, Core.WordOf;
      Load(id);
      label Loaded:
      if toSql {
        code := SqlOrder.ToSqlOrder(memory, scratch);
      } else {
        code := SqlOrder.ToRfcOrder(memory, scratch);
      }
      DataKept(old@Loaded(memory[..]), memory[..]);
      Core.WordKept@Loaded(memory);
      out := memory[scratch..scratch + 16];
    }

    /** A conversion of a caller's own sixteen bytes, rewritten only on success. */
    method BytesInPlace(b: array<byte>, toSql: bool) returns (code: nat)
      requires Valid() && pages >= BASE_PAGES && b.Length == 16 && b != memory
      modifies memory, b
      ensures var id := old(b[..]); var taken := if toSql then SqlOrder.IsV7(id) else SqlOrder.IsSql(id);
        && code == (if taken then SqlOrder.OK else SqlOrder.WRONG_VERSION)
        && b[..] == if !taken then id else if toSql then SqlOrder.SqlOf(id) else SqlOrder.RfcOf(id)
      ensures Valid() && Core.WordOf(memory) == old(Core.WordOf(memory))
    {
      hide SqlOrder.SqlOf, SqlOrder.RfcOf, SqlOrder.IsV7, SqlOrder.IsSql, V5.HasData, Core.WordOf;
      var out;
      out, code := Convert(b[..], toSql);
      label Converted:
      if code == 0 {
        CopyIn(b, 0, out);
        assert b[..] == b[0..0 + |out|];
      }
      assert memory[..] == old@Converted(memory[..]);
    }
  }

  lemma {:induction false} ZerosAreZero(n: nat)
    ensures LE(V5.Zeros(n)) == 0
  {
    if n > 0 {
      ZerosAreZero(n - 1);
      assert V5.Zeros(n)[1..] == V5.Zeros(n - 1);
    }
  }

  /** A new instance with `pages` of scratch, if the host can address it. */
  method NewInstance(limit: nat, pages: nat) returns (instance: Instance?)
    requires 3 <= limit <= 0x1_0000 && pages < TWO32
    ensures instance == null <==> OWN_PAGES + pages > limit
    ensures instance != null ==> fresh(instance) && fresh(instance.memory) && instance.Valid()
    ensures instance != null ==> instance.pages == pages && instance.limit == limit && Core.WordOf(instance.memory) == 0
  {
    var made := new Instance(limit);
    label Made:
    var before := made.Grow(pages);
    if before < 0 {
      return null;
    }
    made.scratch := before * PAGE;
    made.pages := pages;
    made.GrowthKeepsTheStream@Made();
    instance := made;
  }

  /** A version 5 call: a name that fits the base page runs on the instance given, a longer one on
      an instance of its own. Every name that passes the length check is answered. */
  method NewV5(f: V5.Compression, shared: Instance, ns: seq<byte>, name: seq<byte>) returns (out: Readers.Option<seq<byte>>)
    requires shared.Valid() && shared.pages >= BASE_PAGES && shared.limit >= 3 && |ns| == 16
    modifies shared.memory
    ensures if |name| <= MaxName(shared.limit)
      then out == Readers.Some(V5.IdOf(V5.Sha1(f, ns + name))) else out == Readers.None
    ensures shared.Valid() && Core.WordOf(shared.memory) == old(Core.WordOf(shared.memory))
  {
    hide V5.Sha1, V5.IdOf, Core.WordOf;
    EveryCheckedNameFits(|name|, shared.limit);
    if |name| > MaxName(shared.limit) {
      return Readers.None;
    }
    var need := |name| + NAME_AT;
    var id;
    if need <= BASE_PAGES * PAGE {
      id := shared.RunV5(f, ns, name);
    } else {
      var pages := ScratchPagesFor(need, shared.limit);
      PagesAreFewest(need, shared.limit, 0);
      var own := NewInstance(shared.limit, pages.value);
      id := own.RunV5(f, ns, name);
    }
    out := Readers.Some(id);
  }
}
