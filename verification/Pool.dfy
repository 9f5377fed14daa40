/** Who holds which instance, and what they read and write in it: the primary behind its lock, the
    pooled instances, and the one-off instances of long names, as a state machine over the steps
    of concurrent callers. A call is several steps, and others' steps may come between any two. */
module Pool {
  import opened Bytes
  import opened Stream
  import opened V7

  const PRIMARY: nat := 0
  const BASE_PAGES: nat := 1

  // ---- Instances ------------------------------------------------------------------------------------

  /** A scratch, as the items at its start. */
  type Scratch = seq<seq<byte>>

  datatype Memory = Memory(pages: nat, word: Word, scratch: Scratch)

  /** Items written over the start of a scratch. */
  function Over(items: Scratch, scratch: Scratch): Scratch {
    items + if |items| < |scratch| then scratch[|items|..] else []
  }

  function First(scratch: Scratch, n: nat): Scratch {
    if n <= |scratch| then scratch[..n] else scratch
  }

  function Head(scratch: Scratch): seq<byte> {
    if scratch == [] then [] else scratch[0]
  }

  // ---- Callers --------------------------------------------------------------------------------------

  /** What a stateless call is for: its argument, copied into the scratch, becomes its answer. */
  datatype Task = Task(work: seq<byte> -> seq<byte>, arg: seq<byte>)

  /** How far a stateless call has come: holding its instance; with its argument in the scratch;
      with its answer there; with what it copied out. */
  datatype Stage = Held | Loaded | Ran | Answered(out: seq<byte>)

  /** How far a version 7 call has come: holding the lock; having read the stream word; having
      stored the word after it, and its values; with what it copied out. */
  datatype Progress = Locked | Read(word: Word) | Stored(word: Word) | Copied(word: Word, out: Scratch)

  datatype Place = OnPrimary | Pooled | OneOff

  /** What a caller is inside of. A stateless call runs on the primary, on a pooled instance or,
      for a long name, on an instance nobody else knows; a version 7 call on the primary. */
  datatype Job = Stateless(instance: nat, place: Place, task: Task, stage: Stage) | Minting(call: Call, progress: Progress) {
    function Holds(): nat {
      if Minting? then PRIMARY else instance
    }

    predicate HoldsPrimary() {
      Minting? || place.OnPrimary?
    }

    predicate Done() {
      if Minting? then progress.Copied? else stage.Answered?
    }

    predicate HasStored() {
      Minting? && progress.Stored?
    }
  }

  /** What a version 7 call that read `w` is to copy out. */
  function Values(w: Word, call: Call): (ids: Scratch)
    requires call.Valid()
    ensures Perform(w, call).code == OK ==> |ids| == Count(call)
  {
    CallPromises(w, call);
    Ids(Perform(w, call).mints)
  }

  function Count(call: Call): nat {
    if call.Single? then 1 else call.count
  }

  // ---- The machine ----------------------------------------------------------------------------------

  /** Callers are numbered. `log` is the version 7 calls in the order they stored the word, and
      `outs` the values of the stream in the order they were copied out. */
  datatype State = State(locked: bool, jobs: map<nat, Job>, pool: set<nat>, instances: seq<Memory>, log: seq<Call>, outs: Scratch)

  const START := State(false, map[], {}, [Memory(BASE_PAGES, 0, [])], [], [])

  /** The steps of a caller `c`. `Collect` is the garbage collector's: it may empty the pool at
      any moment. A version 7 call that fails leaves `junk` in the scratch. */
  datatype Step =
    | AcquirePrimary(c: nat, task: Task)
    | AcquirePooled(c: nat, task: Task, instance: nat)
    | AcquireNew(c: nat, task: Task)
    | BeginOneOff(c: nat, task: Task, size: nat)
    | LoadArgument(c: nat)
    | Work(c: nat)
    | CopyAnswer(c: nat)
    | Release(c: nat)
    | BeginMint(c: nat, call: Call)
    | GrowScratch(c: nat, to: nat)
    | ReadWord(c: nat)
    | StoreWord(c: nat, junk: Scratch)
    | CopyValues(c: nat)
    | EndMint(c: nat)
    | Collect(instance: nat)
  {
    /** The steps that take the lock. */
    predicate Locks() {
      AcquirePrimary? || BeginMint?
    }

    /** The steps that begin a call, and those that end one. */
    predicate Begins() {
      AcquirePrimary? || AcquirePooled? || AcquireNew? || BeginOneOff? || BeginMint?
    }

    predicate Ends() {
      Release? || EndMint?
    }
  }

  predicate At(s: State, c: nat, stage: Stage) {
    c in s.jobs && s.jobs[c].Stateless? && s.jobs[c].stage == stage && s.jobs[c].instance < |s.instances|
  }

  predicate Mints(s: State, c: nat) {
    c in s.jobs && s.jobs[c].Minting? && s.jobs[c].call.Valid() && |s.instances| > 0
  }

  /** Whether a caller has come as far as a step, the lock aside. */
  predicate Ready(s: State, e: Step) {
    match e
    case AcquirePrimary(c, _) => c !in s.jobs
    case AcquirePooled(c, _, i) => c !in s.jobs && i in s.pool
    case AcquireNew(c, _) => c !in s.jobs
    case BeginOneOff(c, _, _) => c !in s.jobs
    case LoadArgument(c) => At(s, c, Held)
    case Work(c) => At(s, c, Loaded)
    case CopyAnswer(c) => At(s, c, Ran)
    case Release(c) => c in s.jobs && s.jobs[c].Stateless? && s.jobs[c].Done() && s.jobs[c].instance < |s.instances|
    case BeginMint(c, call) => c !in s.jobs && call.Valid()
    case GrowScratch(c, to) => Mints(s, c) && s.jobs[c].progress.Locked? && s.instances[PRIMARY].pages < to
    case ReadWord(c) => Mints(s, c) && s.jobs[c].progress.Locked?
    case StoreWord(c, _) => Mints(s, c) && s.jobs[c].progress.Read?
    case CopyValues(c) => Mints(s, c) && s.jobs[c].progress.Stored?
    case EndMint(c) => Mints(s, c) && s.jobs[c].Done()
    case Collect(i) => i in s.pool
  }

  predicate Enabled(s: State, e: Step) {
    Ready(s, e) && (e.Locks() ==> !s.locked)
  }

  function Next(s: State, e: Step): State
    requires Ready(s, e)
  {
    match e
    case AcquirePrimary(c, task) => s.(locked := true, jobs := s.jobs[c := Stateless(PRIMARY, OnPrimary, task, Held)])
    case AcquirePooled(c, task, i) => s.(pool := s.pool - {i}, jobs := s.jobs[c := Stateless(i, Pooled, task, Held)])
    case AcquireNew(c, task) => Create(s, BASE_PAGES).(jobs := s.jobs[c := Stateless(|s.instances|, Pooled, task, Held)])
    case BeginOneOff(c, task, size) => Create(s, size).(jobs := s.jobs[c := Stateless(|s.instances|, OneOff, task, Held)])
    case LoadArgument(c) =>
      var j := s.jobs[c];
      Write(s, j.instance, Over([j.task.arg], s.instances[j.instance].scratch)).(jobs := s.jobs[c := j.(stage := Loaded)])
    case Work(c) =>
      var j := s.jobs[c];
      var scratch := s.instances[j.instance].scratch;
      Write(s, j.instance, Over([j.task.work(Head(scratch))], scratch)).(jobs := s.jobs[c := j.(stage := Ran)])
    case CopyAnswer(c) =>
      var j := s.jobs[c];
      s.(jobs := s.jobs[c := j.(stage := Answered(Head(s.instances[j.instance].scratch)))])
    case Release(c) => Leave(s, s.jobs[c]).(jobs := s.jobs - {c})
    case BeginMint(c, call) => s.(locked := true, jobs := s.jobs[c := Minting(call, Locked)])
    case GrowScratch(c, to) => s.(instances := s.instances[PRIMARY := s.instances[PRIMARY].(pages := to)])
    case ReadWord(c) => s.(jobs := s.jobs[c := s.jobs[c].(progress := Read(s.instances[PRIMARY].word))])
    case StoreWord(c, junk) =>
      var j, m := s.jobs[c], s.instances[PRIMARY];
      s.(instances := s.instances[PRIMARY := Stores(m, j.progress.word, j.call, junk)],
         jobs := s.jobs[c := j.(progress := Stored(j.progress.word))],
         log := s.log + [j.call])
    case CopyValues(c) =>
      var j := s.jobs[c];
      var res := Perform(j.progress.word, j.call);
      var out := if res.code == OK then First(s.instances[PRIMARY].scratch, Count(j.call)) else [];
      s.(jobs := s.jobs[c := j.(progress := Copied(j.progress.word, out))], outs := s.outs + if res.inStream then out else [])
    case EndMint(c) => Leave(s, s.jobs[c]).(jobs := s.jobs - {c})
    case Collect(i) => s.(pool := s.pool - {i})
  }

  function Create(s: State, pages: nat): State {
    s.(instances := s.instances + [Memory(pages, 0, [])])
  }

  function Write(s: State, i: nat, scratch: Scratch): State
    requires i < |s.instances|
  {
    s.(instances := s.instances[i := s.instances[i].(scratch := scratch)])
  }

  /** The core's run of a version 7 call that read `w`: the word is stored only for a
      reservation. */
  function Stores(m: Memory, w: Word, call: Call, junk: Scratch): Memory
    requires call.Valid()
  {
    var res := Perform(w, call);
    m.(word := if res.inStream then res.word else m.word,
       scratch := if res.code == OK then Over(Values(w, call), m.scratch) else junk)
  }

  /** An instance given back: the lock, or the pool while the instance is still base-sized. */
  function Leave(s: State, j: Job): State
    requires j.Holds() < |s.instances|
  {
    if j.HoldsPrimary() then s.(locked := false)
    else if j.place.Pooled? && s.instances[j.instance].pages == BASE_PAGES then s.(pool := s.pool + {j.instance})
    else s
  }

  // ---- Who holds what -------------------------------------------------------------------------------

  /** A job's instance exists and is not in the pool; only the primary is held under the lock,
      and a pooled instance still has its base page. */
  predicate Fits(s: State, j: Job) {
    && j.Holds() < |s.instances| && j.Holds() !in s.pool
    && (j.Holds() == PRIMARY <==> j.HoldsPrimary())
    && (j.Stateless? && j.place.Pooled? ==> s.instances[j.instance].pages == BASE_PAGES)
    && (j.Minting? ==> j.call.Valid())
  }

  ghost predicate Apart(jobs: map<nat, Job>) {
    forall c, d :: c in jobs && d in jobs && c != d ==> jobs[c].Holds() != jobs[d].Holds()
  }

  /** The lock is held exactly while some caller is on the primary. */
  ghost predicate LockIsHeld(s: State) {
    s.locked <==> exists c :: c in s.jobs && s.jobs[c].HoldsPrimary()
  }

  ghost predicate Shape(s: State) {
    && |s.instances| > 0
    && (forall c :: c in s.jobs ==> Fits(s, s.jobs[c]))
    && Apart(s.jobs) && LockIsHeld(s)
    && (forall i :: i in s.pool ==> PRIMARY < i < |s.instances| && s.instances[i].pages == BASE_PAGES)
    && (forall i :: PRIMARY < i < |s.instances| ==> s.instances[i].word == 0)
  }

  lemma StepKeepsShape(s: State, e: Step)
    requires Shape(s) && Enabled(s, e)
    ensures Shape(Next(s, e))
  {
    if e.Locks() {
      TakingThePrimary(s, e);
    } else if e.Begins() {
      TakingAnother(s, e);
    } else if e.Ends() {
      Leaving(s, e);
    } else {
      Advancing(s, e);
    }
  }

  lemma TakingThePrimary(s: State, e: Step)
    requires Shape(s) && Enabled(s, e) && e.Locks()
    ensures Shape(Next(s, e))
  {
    hide Apart;
    var s' := Next(s, e);
    assert e.c in s'.jobs && s'.jobs[e.c].HoldsPrimary();
    assert forall d :: d in s.jobs ==> s'.jobs[d] == s.jobs[d] && Fits(s, s.jobs[d]);
    OneMoreApart(s.jobs, e.c, s'.jobs[e.c]);
  }

  lemma OneMoreApart(jobs: map<nat, Job>, c: nat, j: Job)
    requires Apart(jobs) && c !in jobs
    requires forall d :: d in jobs ==> jobs[d].Holds() != j.Holds()
    ensures Apart(jobs[c := j])
  {
  }

  lemma TakingAnother(s: State, e: Step)
    requires Shape(s) && Enabled(s, e) && e.Begins() && !e.Locks()
    ensures Shape(Next(s, e))
  {
    hide LockIsHeld, Apart;
    var s' := Next(s, e);
    assert forall d :: d in s.jobs ==> d in s'.jobs && s'.jobs[d] == s.jobs[d] && Fits(s, s.jobs[d]);
    SameOnPrimary(s, s', e.c);
    OneMoreApart(s.jobs, e.c, s'.jobs[e.c]);
  }

  /** A caller not on the primary, before or after, makes no difference to the lock. */
  lemma SameOnPrimary(s: State, s': State, c: nat)
    requires LockIsHeld(s) && s'.locked == s.locked
    requires c in s.jobs ==> c in s'.jobs && s'.jobs[c].HoldsPrimary() == s.jobs[c].HoldsPrimary()
    requires c in s'.jobs && c !in s.jobs ==> !s'.jobs[c].HoldsPrimary()
    requires forall d :: d in s.jobs && d != c ==> d in s'.jobs && s'.jobs[d] == s.jobs[d]
    requires forall d :: d in s'.jobs && d != c ==> d in s.jobs
    ensures LockIsHeld(s')
  {
    if s.locked {
      var d :| d in s.jobs && s.jobs[d].HoldsPrimary();
      assert d in s'.jobs && s'.jobs[d].HoldsPrimary();
    }
  }

  lemma Leaving(s: State, e: Step)
    requires Shape(s) && Enabled(s, e) && e.Ends()
    ensures Shape(Next(s, e))
  {
    hide LockIsHeld;
    var s' := Next(s, e);
    var c := e.c;
    assert s'.jobs == s.jobs - {c};
    OneLess(s, s', c);
    forall d | d in s'.jobs
      ensures Fits(s', s'.jobs[d])
    {
      assert Fits(s, s.jobs[d]) && s.jobs[d].Holds() != s.jobs[c].Holds();
    }
  }

  lemma OneLess(s: State, s': State, c: nat)
    requires LockIsHeld(s) && Apart(s.jobs) && c in s.jobs && s'.jobs == s.jobs - {c}
    requires forall d :: d in s.jobs && s.jobs[d].HoldsPrimary() ==> s.jobs[d].Holds() == PRIMARY
    requires s'.locked == (s.locked && !s.jobs[c].HoldsPrimary())
    ensures LockIsHeld(s')
  {
    if s'.locked {
      var d :| d in s.jobs && s.jobs[d].HoldsPrimary();
      assert d in s'.jobs;
    }
  }

  lemma Advancing(s: State, e: Step)
    requires Shape(s) && Enabled(s, e) && !e.Begins() && !e.Ends()
    ensures Shape(Next(s, e))
  {
    hide LockIsHeld, Fits, Next;
    var s' := Next(s, e);
    var c := if e.Collect? then 0 else e.c;
    InPlace(s, e);
    forall d | d in s'.jobs
      ensures Fits(s', s'.jobs[d])
    {
      StillFits(s, e, d);
    }
    SameOnPrimary(s, s', c);
  }

  /** A step inside a call changes only its own caller's progress and what that caller holds. */
  lemma InPlace(s: State, e: Step)
    requires Shape(s) && Enabled(s, e) && !e.Begins() && !e.Ends()
    ensures var s' := Next(s, e);
      && s'.locked == s.locked && s'.pool <= s.pool && s'.jobs.Keys == s.jobs.Keys && |s'.instances| == |s.instances|
      && (forall d :: d in s.jobs ==>
            && s'.jobs[d].Holds() == s.jobs[d].Holds()
            && s'.jobs[d].HoldsPrimary() == s.jobs[d].HoldsPrimary()
            && (e.Collect? || d != e.c ==> s'.jobs[d] == s.jobs[d]))
      && (forall i :: PRIMARY < i < |s.instances| ==> s'.instances[i].pages == s.instances[i].pages && s'.instances[i].word == s.instances[i].word)
  {
    hide LockIsHeld, Apart, Perform, Values, Over, First, Head;
    if e.Collect? {
    } else {
      assert Fits(s, s.jobs[e.c]);
    }
  }

  lemma StillFits(s: State, e: Step, d: nat)
    requires Shape(s) && Enabled(s, e) && !e.Begins() && !e.Ends() && d in s.jobs && d in Next(s, e).jobs
    ensures Fits(Next(s, e), Next(s, e).jobs[d])
  {
    hide LockIsHeld, Apart, Perform, Values, Over, First, Head;
    assert Fits(s, s.jobs[d]);
  }

  // ---- What they read and write ---------------------------------------------------------------------

  /** What a job relies on: the word it read is still the stream's until it stores, and what it
      put in its instance's scratch is still there until it copies it out. */
  ghost predicate Kept(word: Word, scratch: Scratch, j: Job) {
    match j
    case Stateless(_, _, task, stage) =>
      (match stage
       case Held => true
       case Loaded => Head(scratch) == task.arg
       case Ran => Head(scratch) == task.work(task.arg)
       case Answered(out) => out == task.work(task.arg))
    case Minting(call, progress) =>
      (match progress
       case Locked => true
       case Read(w) => w == word
       case Stored(w) => call.Valid() && (Perform(w, call).code == OK ==> First(scratch, Count(call)) == Values(w, call))
       case Copied(w, out) => call.Valid() && out == Values(w, call))
  }

  /** The values of the stream a call that read `w` minted. */
  function StreamValues(w: Word, call: Call): Scratch
    requires call.Valid()
  {
    if Perform(w, call).inStream then Values(w, call) else []
  }

  /** The values of the stream that a run of calls mints. */
  function RunValues(w: Word, cs: seq<Call>): (ids: Scratch)
    requires AllCallsValid(cs)
    ensures Sorted(ids)
  {
    StreamIsSorted(w, cs);
    Ids(StreamMints(w, cs))
  }

  /** The word is where the calls in the log left it, and the values copied out, with those of the
      one call that may still have to, are the values those calls mint. */
  ghost predicate LogAgrees(s: State)
    requires |s.instances| > 0
  {
    && AllCallsValid(s.log)
    && s.instances[PRIMARY].word == WordAfter(0, s.log)
    && (forall c :: c in s.jobs && s.jobs[c].HasStored() ==> Pending(s, c))
    && ((forall c :: c in s.jobs ==> !s.jobs[c].HasStored()) ==> s.outs == RunValues(0, s.log))
  }

  ghost predicate Pending(s: State, c: nat)
    requires AllCallsValid(s.log) && c in s.jobs && s.jobs[c].HasStored()
  {
    s.jobs[c].call.Valid() && s.outs + StreamValues(s.jobs[c].progress.word, s.jobs[c].call) == RunValues(0, s.log)
  }

  ghost predicate AllKept(s: State)
    requires Shape(s)
  {
    forall c :: c in s.jobs ==> KeptBy(s, c)
  }

  ghost predicate KeptBy(s: State, c: nat)
    requires Shape(s) && c in s.jobs
  {
    assert Fits(s, s.jobs[c]);
    Kept(s.instances[PRIMARY].word, s.instances[s.jobs[c].Holds()].scratch, s.jobs[c])
  }

  ghost predicate Inv(s: State) {
    Shape(s) && AllKept(s) && LogAgrees(s)
  }

  lemma StepKeepsAll(s: State, e: Step)
    requires Shape(s) && AllKept(s) && Enabled(s, e)
    ensures Shape(Next(s, e)) && AllKept(Next(s, e))
  {
    hide Shape, AllKept, Enabled, Next;
    StepKeepsShape(s, e);
    if e.StoreWord? {
      Storing(s, e);
    } else if e.CopyValues? {
      Copying(s, e);
    } else {
      Otherwise(s, e);
    }
  }

  /** The caller that acts keeps what it relies on, and nobody else touches it: the scratch it
      wrote is in an instance only it holds, and the word changes only under the lock. */
  lemma Otherwise(s: State, e: Step)
    requires Shape(s) && AllKept(s) && Enabled(s, e) && Shape(Next(s, e))
    requires !e.StoreWord? && !e.CopyValues?
    ensures AllKept(Next(s, e))
  {
    hide Shape, KeptBy, Ready, Next;
    var s' := Next(s, e);
    forall d | d in s'.jobs
      ensures KeptBy(s', d)
    {
      if !e.Collect? && d == e.c {
        ActorKeeps(s, e);
      } else {
        OthersKeep(s, e, d);
      }
    }
  }

  lemma ActorKeeps(s: State, e: Step)
    requires Shape(s) && AllKept(s) && Enabled(s, e) && Shape(Next(s, e))
    requires !e.StoreWord? && !e.CopyValues? && !e.Collect? && e.c in Next(s, e).jobs
    ensures KeptBy(Next(s, e), e.c)
  {
    hide Perform, Values, First, LockIsHeld, Apart;
    if e.c in s.jobs {
      assert KeptBy(s, e.c);
    }
  }

  lemma OthersKeep(s: State, e: Step, d: nat)
    requires Shape(s) && AllKept(s) && Enabled(s, e) && Shape(Next(s, e))
    requires !e.CopyValues? && d in Next(s, e).jobs && (e.Collect? || d != e.c)
    ensures KeptBy(Next(s, e), d)
  {
    hide Perform, Values, First, Over, Head, LockIsHeld;
    assert d in s.jobs && KeptBy(s, d) && Fits(s, s.jobs[d]);
  }

  lemma Storing(s: State, e: Step)
    requires Shape(s) && AllKept(s) && Enabled(s, e) && e.StoreWord? && Shape(Next(s, e))
    ensures AllKept(Next(s, e))
  {
    var s' := Next(s, e);
    assert KeptBy(s', e.c) by {
      hide Perform, Values, LockIsHeld, Apart;
      assert KeptBy(s, e.c);
    }
    forall d | d in s'.jobs && d != e.c
      ensures KeptBy(s', d)
    {
      OthersKeep(s, e, d);
    }
  }

  lemma Copying(s: State, e: Step)
    requires Shape(s) && AllKept(s) && Enabled(s, e) && e.CopyValues? && Shape(Next(s, e))
    ensures AllKept(Next(s, e))
  {
    hide Perform, First, LockIsHeld;
    var s' := Next(s, e);
    var j := s.jobs[e.c];
    CallPromises(j.progress.word, j.call);
    forall d | d in s'.jobs
      ensures KeptBy(s', d)
    {
      assert KeptBy(s, d);
    }
  }

  lemma StepKeepsLog(s: State, e: Step)
    requires Inv(s) && Enabled(s, e) && Shape(Next(s, e))
    ensures LogAgrees(Next(s, e))
  {
    if e.StoreWord? {
      OneMoreStored(s, e);
    } else if e.CopyValues? {
      OneMoreCopied(s, e);
    } else {
      SameLog(s, e);
    }
  }

  lemma SameLog(s: State, e: Step)
    requires Inv(s) && Enabled(s, e) && Shape(Next(s, e))
    requires !e.StoreWord? && !e.CopyValues?
    ensures LogAgrees(Next(s, e))
  {
    hide Shape, AllKept, StreamValues, RunValues, WordAfter, Over, Head, First;
    var s' := Next(s, e);
    NonEmpty(s);
    PrimaryKeepsItsWord(s, e);
    forall c | c in s'.jobs && s'.jobs[c].HasStored()
      ensures Pending(s', c)
    {
      assert c in s.jobs && s.jobs[c] == s'.jobs[c] && Pending(s, c);
    }
    forall c | c in s.jobs && s.jobs[c].HasStored()
      ensures c in s'.jobs && s'.jobs[c] == s.jobs[c]
    {
    }
  }

  lemma PrimaryKeepsItsWord(s: State, e: Step)
    requires |s.instances| > 0 && Enabled(s, e)
    requires !e.StoreWord? && !e.CopyValues?
    ensures |Next(s, e).instances| > 0
    ensures Next(s, e).log == s.log && Next(s, e).outs == s.outs
    ensures Next(s, e).instances[PRIMARY].word == s.instances[PRIMARY].word
  {
  }

  /** Nobody else is between storing and copying: all of that happens under one lock. */
  lemma OnlyOneMints(s: State, c: nat, d: nat)
    requires Shape(s) && c in s.jobs && d in s.jobs && s.jobs[c].Minting? && s.jobs[d].Minting?
    ensures c == d
  {
  }

  lemma OneMoreStored(s: State, e: Step)
    requires Inv(s) && Enabled(s, e) && Shape(Next(s, e)) && e.StoreWord?
    ensures LogAgrees(Next(s, e))
  {
    hide Perform, RunValues, Values, WordAfter, Over, LockIsHeld;
    var s' := Next(s, e);
    var call := s.jobs[e.c].call;
    var w := s.instances[PRIMARY].word;
    assert KeptBy(s, e.c);
    forall d | d in s.jobs && s.jobs[d].HasStored()
      ensures false
    {
      OnlyOneMints(s, e.c, d);
    }
    forall d | d in s'.jobs && s'.jobs[d].HasStored()
      ensures d == e.c
    {
    }
    CallPromises(w, call);
    OneMoreValues(s.log, call);
    assert s'.jobs[e.c].HasStored() && Pending(s', e.c);
  }

  lemma OneMoreValues(cs: seq<Call>, call: Call)
    requires AllCallsValid(cs) && call.Valid()
    ensures AllCallsValid(cs + [call]) && WordAfter(0, cs + [call]) == Perform(WordAfter(0, cs), call).word
    ensures RunValues(0, cs + [call]) == RunValues(0, cs) + StreamValues(WordAfter(0, cs), call)
  {
    hide Perform, WordAfter, StreamMints, Encode;
    OneMoreCall(0, cs, call);
  }

  lemma OneMoreCopied(s: State, e: Step)
    requires Inv(s) && Enabled(s, e) && Shape(Next(s, e)) && e.CopyValues?
    ensures LogAgrees(Next(s, e))
  {
    hide RunValues, Values, WordAfter, First, LockIsHeld, Perform;
    var s' := Next(s, e);
    var j := s.jobs[e.c];
    assert KeptBy(s, e.c) && Pending(s, e.c);
    CallPromises(j.progress.word, j.call);
    forall d | d in s'.jobs && s'.jobs[d].HasStored()
      ensures false
    {
      OnlyOneMints(s, e.c, d);
    }
  }

  // ---- Every interleaving ---------------------------------------------------------------------------

  lemma StepKeepsInv(s: State, e: Step)
    requires Inv(s) && Enabled(s, e)
    ensures Inv(Next(s, e))
  {
    hide Shape, AllKept, LogAgrees, Enabled, Next;
    StepKeepsAll(s, e);
    StepKeepsLog(s, e);
  }

  ghost predicate Runs(s: State, es: seq<Step>)
    decreases |es|
  {
    es != [] ==> Enabled(s, es[0]) && Runs(Next(s, es[0]), es[1..])
  }

  function After(s: State, es: seq<Step>): State
    decreases |es|
  {
    if es == [] || !Ready(s, es[0]) then s else After(Next(s, es[0]), es[1..])
  }

  lemma {:induction false} RunKeepsInv(s: State, es: seq<Step>)
    requires Inv(s) && Runs(s, es)
    ensures Inv(After(s, es))
    decreases |es|
  {
    hide Inv, Next, Ready;
    if es != [] {
      StepKeepsInv(s, es[0]);
      RunKeepsInv(Next(s, es[0]), es[1..]);
    }
  }

  lemma StartIsSound()
    ensures Inv(START)
  {
  }

  /** Over every interleaving: no instance is held by two callers, at most one caller mints and
      it is alone on the primary, an instance in the pool is held by nobody and still has its
      base page, and only the primary's stream ever moves. */
  lemma EveryInterleaving(es: seq<Step>, c: nat, d: nat, i: nat)
    requires Runs(START, es)
    ensures var s := After(START, es);
      && (c in s.jobs && d in s.jobs && c != d ==> s.jobs[c].Holds() != s.jobs[d].Holds())
      && (c in s.jobs && s.jobs[c].Minting? ==> s.locked && (d in s.jobs && d != c ==> s.jobs[d].Holds() != PRIMARY))
      && (i in s.pool ==> i < |s.instances| && s.instances[i].pages == BASE_PAGES && (c in s.jobs ==> s.jobs[c].Holds() != i))
      && (PRIMARY < i < |s.instances| ==> s.instances[i].word == 0)
  {
    hide AllKept, LogAgrees;
    StartIsSound();
    RunKeepsInv(START, es);
  }

  /** Over every interleaving, each caller copies out exactly what its own call put in the
      scratch: a stateless call its answer, a version 7 call its values, whatever other calls
      wrote between. */
  lemma EachCallerGetsItsOwn(es: seq<Step>, c: nat)
    requires Runs(START, es)
    ensures var s := After(START, es);
      c in s.jobs && s.jobs[c].Done() ==>
        match s.jobs[c]
        case Stateless(_, _, task, stage) => stage.out == task.work(task.arg)
        case Minting(call, progress) => call.Valid() && progress.out == Values(progress.word, call)
  {
    hide Values, Shape, LogAgrees;
    StartIsSound();
    RunKeepsInv(START, es);
  }

  /** The version 7 calls of an interleaving, in the order they stored the word. */
  function Calls(s: State, es: seq<Step>): seq<Call>
    decreases |es|
  {
    if es == [] || !Ready(s, es[0]) then []
    else (if es[0].StoreWord? then [s.jobs[es[0].c].call] else []) + Calls(Next(s, es[0]), es[1..])
  }

  /** The log is every call that stored, once each and in that order. */
  lemma {:induction false} LogIsTheCalls(s: State, es: seq<Step>)
    requires Runs(s, es)
    ensures After(s, es).log == s.log + Calls(s, es)
    decreases |es|
  {
    if es != [] {
      hide Next, Ready;
      LogAfter(s, es[0]);
      LogIsTheCalls(Next(s, es[0]), es[1..]);
    }
  }

  lemma LogAfter(s: State, e: Step)
    requires Ready(s, e)
    ensures e.StoreWord? ==> e.c in s.jobs && s.jobs[e.c].Minting? && Next(s, e).log == s.log + [s.jobs[e.c].call]
    ensures !e.StoreWord? ==> Next(s, e).log == s.log
  {
    hide Perform, Values;
  }

  /** An instance given back goes where it came from: the lock is free again, or the instance is in
      the pool exactly if it is still one page; a one-off is forgotten. And its caller is out. */
  lemma GivenBack(s: State, c: nat)
    requires Enabled(s, Release(c)) && Shape(s)
    ensures var s', j := Next(s, Release(c)), s.jobs[c];
      && c !in s'.jobs
      && (j.place.OnPrimary? ==> !s'.locked && s'.pool == s.pool)
      && (j.place.Pooled? ==> s'.locked == s.locked && s'.pool == s.pool + if s.instances[j.instance].pages == 1 then {j.instance} else {})
      && (j.place.OneOff? ==> s'.locked == s.locked && s'.pool == s.pool)
  {
    assert Fits(s, s.jobs[c]);
  }

  /** Nobody waits for a stateless call: in every reachable state a caller can begin one, on the
      primary if it is free and on another instance if not; and a version 7 call can begin
      exactly when nobody is on the primary. */
  lemma WhoCanBegin(es: seq<Step>, c: nat, task: Task, call: Call)
    requires Runs(START, es) && c !in After(START, es).jobs && call.Valid()
    ensures var s := After(START, es);
      && Enabled(s, AcquireNew(c, task))
      && (Enabled(s, AcquirePrimary(c, task)) <==> Enabled(s, BeginMint(c, call)))
      && (Enabled(s, BeginMint(c, call)) <==> forall d :: d in s.jobs ==> s.jobs[d].Holds() != 0)
  {
    hide AllKept, LogAgrees;
    StartIsSound();
    RunKeepsInv(START, es);
    var s := After(START, es);
    forall d | d in s.jobs
      ensures s.jobs[d].HoldsPrimary() <==> s.jobs[d].Holds() == 0
    {
      assert Fits(s, s.jobs[d]);
    }
  }

  /** Over every interleaving, the stream word is where the calls left it as if each had run
      whole, one after another, in the order they stored it. */
  lemma OneStream(es: seq<Step>)
    requires Runs(START, es)
    ensures var s := After(START, es);
      && |s.instances| > 0 && s.log == Calls(START, es)
      && AllCallsValid(s.log) && s.instances[PRIMARY].word == WordAfter(0, s.log)
  {
    LogIsTheCalls(START, es);
    hide Shape, AllKept;
    StartIsSound();
    RunKeepsInv(START, es);
    assert Shape(After(START, es)) ==> |After(START, es).instances| > 0 by { NonEmpty(After(START, es)); }
  }

  lemma NonEmpty(s: State)
    ensures Shape(s) ==> |s.instances| > 0
  {
  }

  /** What all callers together have copied out of the stream is strictly increasing as 16-byte
      strings, in the order they copied it; and when no call is between storing and copying, it
      is all that the calls in the log minted. */
  lemma AllCallersShareOneOrder(es: seq<Step>)
    requires Runs(START, es)
    ensures var s := After(START, es);
      && Sorted(s.outs) && s.log == Calls(START, es)
      && AllCallsValid(s.log) && s.outs <= RunValues(0, s.log)
      && ((forall c :: c in s.jobs ==> !s.jobs[c].HasStored()) ==> s.outs == RunValues(0, s.log))
  {
    hide Shape, AllKept, RunValues, StreamValues, WordAfter;
    LogIsTheCalls(START, es);
    StartIsSound();
    RunKeepsInv(START, es);
    var s := After(START, es);
    NonEmpty(s);
    if c :| c in s.jobs && s.jobs[c].HasStored() {
      assert Pending(s, c);
    }
    PrefixIsSorted(s.outs, RunValues(0, s.log));
  }

  lemma PrefixIsSorted(ids: Scratch, all: Scratch)
    requires ids <= all && Sorted(all)
    ensures Sorted(ids)
  {
  }

  /** Without the lock it would not hold: if a stateless call may take the primary while a version
      7 call is between storing and copying, that caller copies out the other's argument. */
  lemma TheLockIsNeeded(call: Call, task: Task)
    requires call.Valid() && call.Single? && Perform(0, call).code == OK
    ensures var es := [BeginMint(0, call), ReadWord(0), StoreWord(0, []), AcquirePrimary(1, task), LoadArgument(1), CopyValues(0)];
      && Runs(START, es[..3]) && After(START, es[..3]).locked
      && 0 in After(START, es).jobs && After(START, es).jobs[0] == Minting(call, Copied(0, [task.arg]))
  {
    hide Next, Ready;
    var e0, e1, e2, e3, e4, e5 := BeginMint(0, call), ReadWord(0), StoreWord(0, []), AcquirePrimary(1, task), LoadArgument(1), CopyValues(0);
    var s1 := LockedAndStored(call);
    var s3 := Next(Next(s1, e1), e2);
    Intruding(s3, call, task);
    OneStep(Next(Next(s3, e3), e4), e5, []);
    OneStep(Next(s3, e3), e4, [e5]);
    OneStep(s3, e3, [e4, e5]);
    OneStep(Next(s1, e1), e2, [e3, e4, e5]);
    OneStep(s1, e1, [e2, e3, e4, e5]);
    OneStep(START, e0, [e1, e2, e3, e4, e5]);
    OneStep(Next(s1, e1), e2, []);
    OneStep(s1, e1, [e2]);
    OneStep(START, e0, [e1, e2]);
    assert [e0] + [e1, e2] == [e0, e1, e2, e3, e4, e5][..3];
  }

  lemma LockedAndStored(call: Call) returns (s1: State)
    requires call.Valid() && call.Single? && Perform(0, call).code == OK
    ensures Enabled(START, BeginMint(0, call)) && s1 == Next(START, BeginMint(0, call))
    ensures Enabled(s1, ReadWord(0)) && Enabled(Next(s1, ReadWord(0)), StoreWord(0, []))
    ensures var s3 := Next(Next(s1, ReadWord(0)), StoreWord(0, []));
      s3.locked && s3.jobs == map[0 := Minting(call, Stored(0))] && |s3.instances| == 1
  {
    hide Perform, Values;
    s1 := Next(START, BeginMint(0, call));
  }

  lemma Intruding(s: State, call: Call, task: Task)
    requires call.Valid() && call.Single? && Perform(0, call).code == OK
    requires s.jobs == map[0 := Minting(call, Stored(0))] && |s.instances| == 1
    ensures Ready(s, AcquirePrimary(1, task)) && Ready(Next(s, AcquirePrimary(1, task)), LoadArgument(1))
    ensures var s5 := Next(Next(s, AcquirePrimary(1, task)), LoadArgument(1));
      && Ready(s5, CopyValues(0))
      && 0 in Next(s5, CopyValues(0)).jobs && Next(s5, CopyValues(0)).jobs[0] == Minting(call, Copied(0, [task.arg]))
  {
    hide Perform, Values;
  }

  lemma OneStep(s: State, e: Step, es: seq<Step>)
    requires Ready(s, e)
    ensures After(s, [e] + es) == After(Next(s, e), es)
    ensures Enabled(s, e) && Runs(Next(s, e), es) ==> Runs(s, [e] + es)
  {
    assert ([e] + es)[1..] == es;
  }
}
