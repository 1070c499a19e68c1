/** What single ownership buys: zero-filled pages, an exact prezeroed counter, a sound stack
    registry, and double-allocation panics that cannot fire.  All of it over whole runs. */
module PageSafety {
  import opened Common
  import opened Powers
  import opened StackRegistry
  import opened PageOwnership

  // ---- Zero fill ----

  /** A page at this place has to be zero: it waits in a prezeroed pool, was taken from one, or
      was zeroed for a caller that did not pass DIRTY_OK. */
  ghost predicate MustBeZero(s: State, p: Page, a: Place) {
    && IsAt(s, p, a)
    && match a
       case InPrezeroed(_) => true
       case InHuge(_) => true
       case InFlight(t, i) =>
         (match s.At(t)
          case PrezeroedGot(_) => true
          case HugeZeroed(_) => true
          case FillZeroed(_) => true
          case Returning(bs, zeroed) => zeroed && bs[i].Asked(p)
          case _ => false)
       case _ => false
  }

  ghost predicate ZeroOk(s: State) {
    forall p, a :: MustBeZero(s, p, a) ==> p in s.zero
  }

  ghost predicate ZeroedBy(s: State, step: Step, p: Page)
    requires Enabled(s, step)
  {
    var pc := s.At(step.t);
    match step
    case FinishCache(_) => !pc.dirtyOk && p == pc.page
    case FinishMulti(_) => !pc.dirtyOk && pc.block.Asked(p)
    case ZeroHuge(_) => pc.block.Has(p)
    case ZeroFill(_) => p == pc.page
    case _ => false
  }

  lemma ZeroedPagesAreZero(s: State, step: Step, p: Page)
    requires Enabled(s, step) && ZeroedBy(s, step, p)
    ensures p in Next(s, step).zero
  {
  }

  // ---- What one step can change at all ----

  /** Other threads stay; only the two registry steps touch registry and live stacks; only a stack's
      new guard and a client's write spoil a zero page. */
  ghost predicate Frame(s: State, step: Step)
    requires Enabled(s, step)
  {
    var s' := Next(s, step);
    && s'.pc == s.pc[step.t := s'.At(step.t)]
    && (!step.RegisterStack? && !step.UnregisterStack? ==> s'.registry == s.registry && s'.live == s.live)
    && (step.RegisterStack? ==> s.zero <= s'.zero + {s.At(step.t).block.base})
    && (step.Scribble? ==> s.zero <= s'.zero + step.pages)
    && (!step.RegisterStack? && !step.Scribble? ==> s.zero <= s'.zero)
  }

  /** Requests without DIRTY_OK always end in a zeroed delivery. */
  ghost predicate CleanRequest(pc: Pc) {
    match pc
    case TryPrezeroed(_) => true
    case PrezeroedGot(_) => true
    case TryCache(d) => !d
    case RefillZones(d) => !d
    case RefillCache(_, d) => !d
    case RetryCache(d) => !d
    case CacheGot(_, d) => !d
    case MultiZones(_, d) => !d
    case MultiGot(_, d) => !d
    case Returning(_, z) => z
    case _ => false
  }

  ghost predicate PoolsFit(s: State) {
    |s.cache| <= PAGE_CACHE_SIZE && |s.huge| <= PREZEROED_HUGE_POOL_SIZE
  }

  /** Pools stay within their arrays, 2 MB paths keep 2 MB blocks, clean requests stay clean. */
  ghost predicate ThreadFacts(s: State, step: Step)
    requires Enabled(s, step)
  {
    var was, now := s.At(step.t), Next(s, step).At(step.t);
    && (PoolsFit(s) ==> PoolsFit(Next(s, step)))
    && (HugeBlock(was) ==> HugeBlock(now))
    && (CleanRequest(was) ==> CleanRequest(now) || now.Idle?)
    && ((step.StartAlloc? || step.StartMulti?) && !step.dirtyOk ==> CleanRequest(now))
    && (step.StartPrezeroedOnly? || step.PopHuge? ==> CleanRequest(now))
    && (!TouchesCount(step) ==> SameCount(s, Next(s, step), step.t))
  }

  /** The steps that change the prezeroed pool or its counter. */
  predicate TouchesCount(step: Step) {
    step.PopPrezeroed? || step.SubPrezeroed? || step.PushFill? || step.CountFill?
  }

  ghost predicate SameCount(s: State, s': State, t: Tid) {
    && s'.prezCount == s.prezCount && s'.prez == s.prez && s'.prezLock == s.prezLock
    && (s'.At(t).FillCounting? <==> s.At(t).FillCounting?)
  }

  lemma FramePops(s: State, step: Step)
    requires Enabled(s, step) && KindOf(step) == Pops
    ensures Frame(s, step)
  {
  }

  lemma FrameDrains(s: State, step: Step)
    requires Enabled(s, step) && KindOf(step) == Drains
    ensures Frame(s, step)
  {
  }

  lemma FrameZones(s: State, step: Step)
    requires Enabled(s, step) && KindOf(step) == Zones
    ensures Frame(s, step)
  {
  }

  lemma FramePushes(s: State, step: Step)
    requires Enabled(s, step) && KindOf(step) == Pushes
    ensures Frame(s, step)
  {
  }

  lemma FrameParks(s: State, step: Step)
    requires Enabled(s, step) && KindOf(step) == Parks
    ensures Frame(s, step)
  {
  }

  lemma FrameClaims(s: State, step: Step)
    requires Enabled(s, step) && KindOf(step) == Claims
    ensures Frame(s, step)
  {
  }

  lemma FrameReleases(s: State, step: Step)
    requires Enabled(s, step) && KindOf(step) == Releases
    ensures Frame(s, step)
  {
  }

  lemma FrameStacks(s: State, step: Step)
    requires Enabled(s, step) && KindOf(step) == Stacks
    ensures Frame(s, step)
  {
  }

  lemma FrameHands(s: State, step: Step)
    requires Enabled(s, step) && KindOf(step) == Hands
    ensures Frame(s, step)
  {
  }

  lemma FrameReturns(s: State, step: Step)
    requires Enabled(s, step) && KindOf(step) == Returns
    ensures Frame(s, step)
  {
  }

  lemma FrameStill(s: State, step: Step)
    requires Enabled(s, step) && KindOf(step) == Still
    ensures Frame(s, step)
  {
  }

  lemma FrameHolds(s: State, step: Step)
    requires Enabled(s, step)
    ensures Frame(s, step)
  {
    match KindOf(step) {
      case Pops => FramePops(s, step);
      case Drains => FrameDrains(s, step);
      case Zones => FrameZones(s, step);
      case Pushes => FramePushes(s, step);
      case Parks => FrameParks(s, step);
      case Claims => FrameClaims(s, step);
      case Releases => FrameReleases(s, step);
      case Stacks => FrameStacks(s, step);
      case Hands => FrameHands(s, step);
      case Returns => FrameReturns(s, step);
      case Still => FrameStill(s, step);
    }
  }

  lemma FactsPops(s: State, step: Step)
    requires Enabled(s, step) && KindOf(step) == Pops
    ensures ThreadFacts(s, step)
  {
  }

  lemma FactsDrains(s: State, step: Step)
    requires Enabled(s, step) && KindOf(step) == Drains
    ensures ThreadFacts(s, step)
  {
  }

  lemma FactsZones(s: State, step: Step)
    requires Enabled(s, step) && KindOf(step) == Zones
    ensures ThreadFacts(s, step)
  {
  }

  lemma FactsPushes(s: State, step: Step)
    requires Enabled(s, step) && KindOf(step) == Pushes
    ensures ThreadFacts(s, step)
  {
  }

  lemma FactsParks(s: State, step: Step)
    requires Enabled(s, step) && KindOf(step) == Parks
    ensures ThreadFacts(s, step)
  {
  }

  lemma FactsClaims(s: State, step: Step)
    requires Enabled(s, step) && KindOf(step) == Claims
    ensures ThreadFacts(s, step)
  {
  }

  lemma FactsReleases(s: State, step: Step)
    requires Enabled(s, step) && KindOf(step) == Releases
    ensures ThreadFacts(s, step)
  {
  }

  lemma FactsStacks(s: State, step: Step)
    requires Enabled(s, step) && KindOf(step) == Stacks
    ensures ThreadFacts(s, step)
  {
  }

  lemma FactsHands(s: State, step: Step)
    requires Enabled(s, step) && KindOf(step) == Hands
    ensures ThreadFacts(s, step)
  {
  }

  lemma FactsReturns(s: State, step: Step)
    requires Enabled(s, step) && KindOf(step) == Returns
    ensures ThreadFacts(s, step)
  {
  }

  lemma FactsStill(s: State, step: Step)
    requires Enabled(s, step) && KindOf(step) == Still
    ensures ThreadFacts(s, step)
  {
  }

  lemma ThreadFactsHold(s: State, step: Step)
    requires Enabled(s, step)
    ensures ThreadFacts(s, step)
  {
    match KindOf(step) {
      case Pops => FactsPops(s, step);
      case Drains => FactsDrains(s, step);
      case Zones => FactsZones(s, step);
      case Pushes => FactsPushes(s, step);
      case Parks => FactsParks(s, step);
      case Claims => FactsClaims(s, step);
      case Releases => FactsReleases(s, step);
      case Stacks => FactsStacks(s, step);
      case Hands => FactsHands(s, step);
      case Returns => FactsReturns(s, step);
      case Still => FactsStill(s, step);
    }
  }

  // A duty to be zero is inherited from the origin or discharged by this very step.

  lemma DutyPops(s: State, step: Step, p: Page, a: Place)
    requires Enabled(s, step) && MustBeZero(Next(s, step), p, a) && KindOf(step) == Pops
    ensures MustBeZero(s, p, Origin(s, step, p, a))
  {
    TracePops(s, step, p, a);
    SpanOfOne();
  }

  lemma DutyDrains(s: State, step: Step, p: Page, a: Place)
    requires Enabled(s, step) && MustBeZero(Next(s, step), p, a) && KindOf(step) == Drains
    ensures MustBeZero(s, p, Origin(s, step, p, a))
  {
    TraceDrains(s, step, p, a);
    SpanOfOne();
  }

  lemma DutyZones(s: State, step: Step, p: Page, a: Place)
    requires Enabled(s, step) && MustBeZero(Next(s, step), p, a) && KindOf(step) == Zones
    ensures MustBeZero(s, p, Origin(s, step, p, a))
  {
    TraceZones(s, step, p, a);
  }

  lemma DutyPushes(s: State, step: Step, p: Page, a: Place)
    requires Enabled(s, step) && MustBeZero(Next(s, step), p, a) && KindOf(step) == Pushes
    ensures MustBeZero(s, p, Origin(s, step, p, a))
  {
    TracePushes(s, step, p, a);
    SpanOfOne();
  }

  lemma DutyParks(s: State, step: Step, p: Page, a: Place)
    requires Enabled(s, step) && HugeBlock(s.At(step.t)) && MustBeZero(Next(s, step), p, a) && KindOf(step) == Parks
    ensures MustBeZero(s, p, Origin(s, step, p, a))
  {
    TraceParks(s, step, p, a);
  }

  lemma DutyClaims(s: State, step: Step, p: Page, a: Place)
    requires Enabled(s, step) && MustBeZero(Next(s, step), p, a) && KindOf(step) == Claims
    ensures MustBeZero(s, p, Origin(s, step, p, a))
  {
    TraceClaims(s, step, p, a);
  }

  lemma DutyReleases(s: State, step: Step, p: Page, a: Place)
    requires Enabled(s, step) && MustBeZero(Next(s, step), p, a) && KindOf(step) == Releases
    ensures MustBeZero(s, p, Origin(s, step, p, a))
  {
    TraceReleases(s, step, p, a);
  }

  lemma DutyStacks(s: State, step: Step, p: Page, a: Place)
    requires Enabled(s, step) && MustBeZero(Next(s, step), p, a) && KindOf(step) == Stacks
    ensures MustBeZero(s, p, Origin(s, step, p, a))
  {
    TraceStacks(s, step, p, a);
  }

  lemma DutyStill(s: State, step: Step, p: Page, a: Place)
    requires Enabled(s, step) && MustBeZero(Next(s, step), p, a) && KindOf(step) == Still
    ensures MustBeZero(s, p, Origin(s, step, p, a))
  {
    TraceStill(s, step, p, a);
  }

  lemma DutyHands(s: State, step: Step, p: Page, a: Place)
    requires Enabled(s, step) && MustBeZero(Next(s, step), p, a) && KindOf(step) == Hands
    ensures MustBeZero(s, p, Origin(s, step, p, a)) || ZeroedBy(s, step, p)
  {
    TraceHands(s, step, p, a);
    SpanOfOne();
  }

  lemma DutyReturns(s: State, step: Step, p: Page, a: Place)
    requires Enabled(s, step) && MustBeZero(Next(s, step), p, a) && KindOf(step) == Returns
    ensures MustBeZero(s, p, Origin(s, step, p, a)) || ZeroedBy(s, step, p)
  {
    TraceReturns(s, step, p, a);
    SpanOfOne();
  }

  lemma WritablePlace(s: State, p: Page, a: Place)
    requires SinglePlace(s) && IsAt(s, p, a)
    ensures Writable(s, p) ==> a.InBuddy? || a.Owned? || a.Live?
  {
    if Writable(s, p) {
      if p in s.buddy {
        assert IsAt(s, p, InBuddy);
      } else if c :| c in s.owned && c.block.Has(p) {
        assert IsAt(s, p, Owned(c));
      } else {
        var b :| b in s.live && b.Has(p);
        assert IsAt(s, p, Live(b));
      }
    }
  }

  /** The only steps after which a zero page may not be zero any more. */
  lemma WhoWrites(s: State, step: Step, p: Page)
    requires Enabled(s, step) && p in s.zero
    ensures || p in Next(s, step).zero
            || (step.RegisterStack? && p == s.At(step.t).block.base)
            || (step.Scribble? && p in step.pages)
  {
    FrameHolds(s, step);
  }

  /** Only pages nobody counts on lose their zeroes. */
  lemma DutyKeepsZero(s: State, step: Step, p: Page, a: Place)
    requires Enabled(s, step) && SinglePlace(s) && ZeroOk(s) && MustBeZero(s, p, a)
    ensures p in Next(s, step).zero
  {
    WhoWrites(s, step, p);
    if step.Scribble? {
      ScribbleSpares(s, step, p, a);
    }
    if step.RegisterStack? {
      InstallingSpares(s, step.t, s.At(step.t).block, p, a);
    }
  }

  lemma ScribbleSpares(s: State, step: Step, p: Page, a: Place)
    requires Enabled(s, step) && SinglePlace(s) && MustBeZero(s, p, a) && step.Scribble?
    ensures p !in step.pages
  {
    if p in step.pages {
      assert Writable(s, p);
      WritablePlace(s, p, a);
    }
  }

  lemma InstallingSpares(s: State, t: Tid, b: Block, p: Page, a: Place)
    requires SinglePlace(s) && MustBeZero(s, p, a) && s.At(t) == StackInstalling(b)
    ensures p != b.base
  {
    assert p == b.base ==> IsAt(s, p, InFlight(t, 0));
  }

  lemma DutyTraces(s: State, step: Step, p: Page, a: Place)
    requires Enabled(s, step) && HugeSized(s) && MustBeZero(Next(s, step), p, a)
    ensures MustBeZero(s, p, Origin(s, step, p, a)) || ZeroedBy(s, step, p)
  {
    match KindOf(step) {
      case Pops => DutyPops(s, step, p, a);
      case Drains => DutyDrains(s, step, p, a);
      case Zones => DutyZones(s, step, p, a);
      case Pushes => DutyPushes(s, step, p, a);
      case Parks => DutyParks(s, step, p, a);
      case Claims => DutyClaims(s, step, p, a);
      case Releases => DutyReleases(s, step, p, a);
      case Stacks => DutyStacks(s, step, p, a);
      case Hands => DutyHands(s, step, p, a);
      case Returns => DutyReturns(s, step, p, a);
      case Still => DutyStill(s, step, p, a);
    }
  }

  lemma StepKeepsZeroOk(s: State, step: Step)
    requires Enabled(s, step) && HugeSized(s) && SinglePlace(s) && ZeroOk(s)
    ensures ZeroOk(Next(s, step))
  {
    forall p, a | MustBeZero(Next(s, step), p, a) ensures p in Next(s, step).zero {
      DutyTraces(s, step, p, a);
      if ZeroedBy(s, step, p) {
        ZeroedPagesAreZero(s, step, p);
      } else {
        DutyKeepsZero(s, step, p, Origin(s, step, p, a));
      }
    }
  }

  // ---- The prezeroed counter ----

  /** Threads that popped a prezeroed page and have not subtracted it from the counter yet. */
  ghost function Popped(s: State): set<Tid> {
    set t | t in s.pc && s.pc[t].PrezeroedGot?
  }

  ghost predicate CountOk(s: State) {
    && s.prezCount + (if s.prezLock.Some? then 1 else 0) == |s.prez| + |Popped(s)|
    && (s.prezLock.Some? ==> |s.prez| > 0)
    && LockIsCounting(s)
    && |s.prez| <= PREZEROED_4K_POOL_SIZE
    && |s.pc| + PREZEROED_4K_POOL_SIZE < COUNTER_MAX
  }

  lemma PoppedAfter(s: State, step: Step)
    requires Enabled(s, step)
    ensures Popped(Next(s, step)) == match step
                                     case PopPrezeroed(t) => Popped(s) + {t}
                                     case SubPrezeroed(t) => Popped(s) - {t}
                                     case _ => Popped(s)
  {
    OtherThreadsStay(s, step);
  }

  /** The pool lock is held by exactly the thread between its push and its count. */
  ghost predicate LockIsCounting(s: State) {
    forall t :: t in s.pc ==> (s.pc[t].FillCounting? <==> s.prezLock == Some(t))
  }

  /** A step moves its own thread only. */
  lemma OtherThreadsStay(s: State, step: Step)
    requires Enabled(s, step)
    ensures Next(s, step).pc == s.pc[step.t := Next(s, step).At(step.t)]
  {
    FrameHolds(s, step);
  }

  lemma CountingStepKeepsCountOk(s: State, step: Step)
    requires Enabled(s, step) && CountOk(s) && TouchesCount(step)
    ensures CountOk(Next(s, step))
    ensures step.SubPrezeroed? ==> s.prezCount > 0
    ensures step.CountFill? ==> s.prezCount < COUNTER_MAX
  {
    PoppedAfter(s, step);
    SubsetSize(Popped(s), s.pc.Keys);
    OtherThreadsStay(s, step);
    assert Next(s, step).pc.Keys == s.pc.Keys;
    assert step.PopPrezeroed? ==> step.t !in Popped(s);
    assert step.SubPrezeroed? ==> step.t in Popped(s);
  }

  lemma StepKeepsCountOk(s: State, step: Step)
    requires Enabled(s, step) && CountOk(s)
    ensures CountOk(Next(s, step))
    ensures step.SubPrezeroed? ==> s.prezCount > 0
    ensures step.CountFill? ==> s.prezCount < COUNTER_MAX
  {
    if TouchesCount(step) {
      CountingStepKeepsCountOk(s, step);
    } else {
      PoppedAfter(s, step);
      ThreadFactsHold(s, step);
      OtherThreadsStay(s, step);
      assert Next(s, step).pc.Keys == s.pc.Keys;
    }
  }

  // ---- The stack registry ----

  ghost predicate Positive(s: State) {
    forall p, a :: IsAt(s, p, a) ==> p > 0
  }

  ghost function LivePages(s: State): set<Page> {
    set b, p | b in s.live && p in AskedPages(b) :: p
  }

  ghost predicate RegistryOk(s: State) {
    && |s.registry| == REGISTRY_SIZE
    && Distinct(s.registry)
    && Entries(s.registry) <= LivePages(s)
  }

  lemma StepKeepsPositive(s: State, step: Step)
    requires Enabled(s, step) && HugeSized(s) && Positive(s)
    ensures Positive(Next(s, step))
  {
    forall p, a | IsAt(Next(s, step), p, a) ensures p > 0 {
      StepTraces(s, step, p, a);
    }
  }

  lemma AskedIsRange(b: Block)
    ensures AskedPages(b) == Range(b.base, b.num)
    ensures forall p: nat :: b.Asked(p) ==> b.Has(p)
  {
    OrderIsLeast(b.num);
    forall p: nat ensures p in AskedPages(b) <==> p in Range(b.base, b.num) {
      assert b.Asked(p) <==> InRange(p, b.base, b.num);
    }
  }

  /** The pages of a stack about to be registered are not in the registry. */
  lemma NewStackUnregistered(s: State, t: Tid)
    requires SinglePlace(s) && RegistryOk(s) && s.At(t).StackInstalling?
    ensures LivePages(s) !! Range(s.At(t).block.base, s.At(t).block.num)
  {
    var nb := s.At(t).block;
    AskedIsRange(nb);
    forall p | p in LivePages(s) && p in Range(nb.base, nb.num) ensures false {
      var b :| b in s.live && p in AskedPages(b);
      AskedIsRange(b);
      assert IsAt(s, p, Live(b)) && IsAt(s, p, InFlight(t, 0));
    }
  }

  lemma RegisterLivePages(s: State, step: Step)
    requires Enabled(s, step) && step.RegisterStack?
    ensures LivePages(Next(s, step)) == LivePages(s) + Range(s.At(step.t).block.base, s.At(step.t).block.num)
  {
    var nb := s.At(step.t).block;
    AskedIsRange(nb);
    var s' := Next(s, step);
    forall p | p in LivePages(s) + AskedPages(nb) ensures p in LivePages(s') {
      if p in AskedPages(nb) {
        assert nb in s'.live;
      } else {
        var b :| b in s.live && p in AskedPages(b);
        assert b in s'.live;
      }
    }
  }

  lemma UnregisterLivePages(s: State, step: Step)
    requires Enabled(s, step) && SinglePlace(s) && step.UnregisterStack?
    ensures LivePages(Next(s, step)) == LivePages(s) - Range(step.block.base, step.block.num)
  {
    var ob := step.block;
    AskedIsRange(ob);
    var s' := Next(s, step);
    forall p | p in LivePages(s) - AskedPages(ob) ensures p in LivePages(s') {
      var b :| b in s.live && p in AskedPages(b);
      assert b in s'.live;
    }
    forall p | p in LivePages(s') ensures p in LivePages(s) && p !in AskedPages(ob) {
      var b :| b in s'.live && p in AskedPages(b);
      assert b in s.live;
      if p in AskedPages(ob) {
        AskedIsRange(b);
        assert IsAt(s, p, Live(b)) && IsAt(s, p, Live(ob));
      }
    }
  }

  lemma OtherStepsLeaveRegistry(s: State, step: Step)
    requires Enabled(s, step) && !step.RegisterStack? && !step.UnregisterStack?
    ensures Next(s, step).registry == s.registry && Next(s, step).live == s.live
  {
    FrameHolds(s, step);
  }

  lemma BlockBasePositive(s: State, b: Block, a: Place)
    requires Positive(s) && IsAt(s, b.base, a)
    ensures b.base > 0
  {
  }

  /** The registry never claims a page that is not part of a live stack; while all live stack
      pages fit into its 256 slots it knows every one of them. */
  lemma StepKeepsRegistryOk(s: State, step: Step)
    requires Enabled(s, step) && SinglePlace(s) && Positive(s) && RegistryOk(s)
    ensures RegistryOk(Next(s, step))
    ensures Entries(s.registry) == LivePages(s) && |LivePages(Next(s, step))| <= REGISTRY_SIZE ==>
              Entries(Next(s, step).registry) == LivePages(Next(s, step))
  {
    if step.RegisterStack? {
      var b := s.At(step.t).block;
      OrderIsLeast(b.num);
      BlockBasePositive(s, b, InFlight(step.t, 0));
      NewStackUnregistered(s, step.t);
      RegisterLivePages(s, step);
      RegisterEffect(s.registry, b.base, b.num);
      EntriesAndFreeSlots(s.registry);
      RangeSize(b.base, b.num);
      assert |LivePages(Next(s, step))| == |LivePages(s)| + b.num;
    } else if step.UnregisterStack? {
      OrderIsLeast(step.block.num);
      BlockBasePositive(s, step.block, Live(step.block));
      UnregisterLivePages(s, step);
      UnregisterEffect(s.registry, step.block.base, step.block.num);
    } else {
      OtherStepsLeaveRegistry(s, step);
      assert LivePages(Next(s, step)) == LivePages(s);
    }
  }

  lemma {:induction false} RangeSize(base: nat, num: nat)
    ensures |Range(base, num)| == num
  {
    if num == 0 {
      assert Range(base, num) == {};
    } else {
      RangeSize(base, num - 1);
      assert Range(base, num) == Range(base, num - 1) + {base + num - 1};
    }
  }

  // ---- Whole runs ----

  ghost predicate Initial(s: State) {
    && 0 !in s.buddy
    && s.cache == [] && s.prez == [] && s.huge == []
    && s.parked == {} && s.live == {} && s.owned == {}
    && (forall t :: t in s.pc ==> s.pc[t] == Idle)
    && |s.registry| == REGISTRY_SIZE && (forall i :: 0 <= i < REGISTRY_SIZE ==> s.registry[i] == 0)
    && s.prezCount == 0 && s.prezLock == None
    && |s.pc| + PREZEROED_4K_POOL_SIZE < COUNTER_MAX
  }

  ghost predicate IsRun(trace: seq<State>, steps: seq<Step>) {
    && |trace| == |steps| + 1
    && Initial(trace[0])
    && forall i :: 0 <= i < |steps| ==> Enabled(trace[i], steps[i]) && trace[i + 1] == Next(trace[i], steps[i])
  }

  ghost predicate Inv(s: State) {
    HugeSized(s) && PoolsFit(s) && SinglePlace(s) && ZeroOk(s) && CountOk(s) && Positive(s) && RegistryOk(s)
  }

  lemma StepKeepsPoolsFit(s: State, step: Step)
    requires Enabled(s, step) && PoolsFit(s)
    ensures PoolsFit(Next(s, step))
  {
    ThreadFactsHold(s, step);
  }

  lemma StepKeepsHugeSized(s: State, step: Step)
    requires Enabled(s, step) && HugeSized(s)
    ensures HugeSized(Next(s, step))
  {
    OtherThreadsStay(s, step);
    ThreadFactsHold(s, step);
  }

  lemma InitialIsGood(s: State)
    requires Initial(s)
    ensures Inv(s) && Entries(s.registry) == LivePages(s) == {}
  {
    forall p, a | IsAt(s, p, a) ensures a == InBuddy {
      assert a.InFlight? ==> s.At(a.t) == Idle;
    }
    assert Popped(s) == {};
  }

  /** Single ownership, zero fill, the counter and the registry hold in every state of every run. */
  lemma {:induction false} EveryRunIsSafe(trace: seq<State>, steps: seq<Step>, n: nat)
    requires IsRun(trace, steps) && n < |trace|
    ensures Inv(trace[n])
  {
    if n == 0 {
      InitialIsGood(trace[0]);
    } else {
      EveryRunIsSafe(trace, steps, n - 1);
      var s, step := trace[n - 1], steps[n - 1];
      StepKeepsHugeSized(s, step);
      StepKeepsPoolsFit(s, step);
      StepKeepsSinglePlace(s, step);
      StepKeepsZeroOk(s, step);
      StepKeepsCountOk(s, step);
      StepKeepsPositive(s, step);
      StepKeepsRegistryOk(s, step);
    }
  }

  lemma InFlightIsNowhereElse(s: State, t: Tid, i: nat, p: Page)
    requires SinglePlace(s) && i < |Holds(s.At(t))| && Holds(s.At(t))[i].Has(p)
    ensures p !in s.buddy && p !in s.cache && p !in s.prez
    ensures forall k :: 0 <= k < |s.huge| ==> !Block(s.huge[k], HUGE_PAGES).Has(p)
    ensures forall b :: b in s.parked || b in s.live ==> !b.Has(p)
    ensures forall c :: c in s.owned ==> !c.block.Has(p)
    ensures forall u, j: nat :: (u != t || j != i) && j < |Holds(s.At(u))| ==> !Holds(s.At(u))[j].Has(p)
  {
    assert IsAt(s, p, InFlight(t, i));
    assert !IsAt(s, p, InBuddy);
    forall k | 0 <= k < |s.cache| ensures s.cache[k] != p {
      assert !IsAt(s, p, InCache(k));
    }
    forall k | 0 <= k < |s.prez| ensures s.prez[k] != p {
      assert !IsAt(s, p, InPrezeroed(k));
    }
    forall k | 0 <= k < |s.huge| ensures !Block(s.huge[k], HUGE_PAGES).Has(p) {
      assert !IsAt(s, p, InHuge(k));
    }
    forall b | b in s.parked || b in s.live ensures !b.Has(p) {
      assert !IsAt(s, p, Parked(b)) && !IsAt(s, p, Live(b));
    }
    forall c | c in s.owned ensures !c.block.Has(p) {
      assert !IsAt(s, p, Owned(c));
    }
    forall u, j: nat | (u != t || j != i) && j < |Holds(s.At(u))| ensures !Holds(s.At(u))[j].Has(p) {
      assert !IsAt(s, p, InFlight(u, j));
    }
  }

  /** A page a thread is about to return to its caller is nowhere else: not free, not in a pool,
      not in a stack, not owned by a client, not held by another thread. */
  lemma NoDoubleAllocation(trace: seq<State>, steps: seq<Step>, n: nat, t: Tid, i: nat, p: Page)
    requires IsRun(trace, steps) && n < |trace|
    requires i < |Holds(trace[n].At(t))| && Holds(trace[n].At(t))[i].Has(p)
    ensures var s := trace[n];
            && p !in s.buddy && p !in s.cache && p !in s.prez
            && (forall k :: 0 <= k < |s.huge| ==> !Block(s.huge[k], HUGE_PAGES).Has(p))
            && (forall b :: b in s.parked || b in s.live ==> !b.Has(p))
            && (forall c :: c in s.owned ==> !c.block.Has(p))
            && (forall u, j: nat :: (u != t || j != i) && j < |Holds(s.At(u))| ==> !Holds(s.At(u))[j].Has(p))
  {
    EveryRunIsSafe(trace, steps, n);
    InFlightIsNowhereElse(trace[n], t, i, p);
  }

  lemma EntryIsLive(s: State, p: Page)
    requires RegistryOk(s)
    ensures p in Entries(s.registry) ==> exists b :: b in s.live && b.Has(p)
  {
    if p in Entries(s.registry) {
      var b :| b in s.live && p in AskedPages(b);
      AskedIsRange(b);
      assert b.Has(p);
    }
  }

  /** In every run the registry holds only pages of stacks that are live at that moment. */
  lemma EntriesAreLive(trace: seq<State>, steps: seq<Step>, n: nat, p: Page)
    requires IsRun(trace, steps) && n < |trace|
    ensures p in Entries(trace[n].registry) ==> exists b :: b in trace[n].live && b.Has(p)
  {
    EveryRunIsSafe(trace, steps, n);
    EntryIsLive(trace[n], p);
  }

  /** The double-alloc, pool-overlap and free-live-stack panics test a page in flight against the
      registry and the pools.  None of those tests can succeed in any run. */
  lemma PanicsUnreachable(trace: seq<State>, steps: seq<Step>, n: nat, t: Tid, i: nat, p: Page)
    requires IsRun(trace, steps) && n < |trace|
    requires i < |Holds(trace[n].At(t))| && Holds(trace[n].At(t))[i].Has(p)
    ensures p !in Entries(trace[n].registry)
    ensures p !in trace[n].cache && p !in trace[n].prez
    ensures trace[n].At(t).FreeZones? ==> p !in trace[n].buddy
  {
    EveryRunIsSafe(trace, steps, n);
    NoDoubleAllocation(trace, steps, n, t, i, p);
    EntriesAreLive(trace, steps, n, p);
  }

  lemma ZeroedDeliveryIsZero(trace: seq<State>, steps: seq<Step>, n: nat, p: Page)
    requires IsRun(trace, steps) && n < |steps| && steps[n].Deliver?
    requires trace[n].At(steps[n].t).zeroed
    requires exists i :: 0 <= i < |trace[n].At(steps[n].t).blocks| && trace[n].At(steps[n].t).blocks[i].Asked(p)
    ensures p in trace[n + 1].zero
  {
    EveryRunIsSafe(trace, steps, n);
    var s, t := trace[n], steps[n].t;
    var bs := s.At(t).blocks;
    var i :| 0 <= i < |bs| && bs[i].Asked(p);
    OrderIsLeast(bs[i].num);
    assert MustBeZero(s, p, InFlight(t, i));
  }

  lemma CleanRequestStaysClean(s: State, step: Step)
    requires Enabled(s, step)
    ensures CleanRequest(s.At(step.t)) ==> CleanRequest(Next(s, step).At(step.t)) || Next(s, step).At(step.t).Idle?
    ensures (step.StartAlloc? || step.StartMulti?) && !step.dirtyOk ==> CleanRequest(Next(s, step).At(step.t))
    ensures step.StartPrezeroedOnly? || step.PopHuge? ==> CleanRequest(Next(s, step).At(step.t))
  {
    ThreadFactsHold(s, step);
  }

  /** The steps with which a thread begins an operation. */
  predicate Starts(step: Step) {
    || step.StartAlloc? || step.StartPrezeroedOnly? || step.StartBatch? || step.StartMulti? || step.PopHuge?
    || step.StartFree? || step.StartHugeFree? || step.StartFill?
    || step.AdoptStack? || step.UnparkStack? || step.UnregisterStack?
  }

  /** A request without DIRTY_OK, or for a page of a prezeroed pool. */
  predicate StartsClean(step: Step) {
    ((step.StartAlloc? || step.StartMulti?) && !step.dirtyOk) || step.StartPrezeroedOnly? || step.PopHuge?
  }

  lemma IdleStaysIdle(s: State, step: Step)
    requires Enabled(s, step) && s.At(step.t).Idle? && !Starts(step)
    ensures Next(s, step).At(step.t).Idle?
  {
  }

  lemma CleanOrIdle(s: State, step: Step, t: Tid)
    requires Enabled(s, step) && (CleanRequest(s.At(t)) || s.At(t).Idle?) && (step.t == t ==> !Starts(step))
    ensures CleanRequest(Next(s, step).At(t)) || Next(s, step).At(t).Idle?
  {
    if step.t != t {
      OtherThreadsStay(s, step);
    } else if s.At(t).Idle? {
      IdleStaysIdle(s, step);
    } else {
      CleanRequestStaysClean(s, step);
    }
  }

  /** From a clean start on, until the next start, a thread is in a clean request or idle. */
  lemma {:induction false} CleanSinceStart(trace: seq<State>, steps: seq<Step>, m: nat, n: nat, t: Tid)
    requires IsRun(trace, steps) && m < n < |trace| && steps[m].t == t && StartsClean(steps[m])
    requires forall k :: m < k < n && steps[k].t == t ==> !Starts(steps[k])
    ensures CleanRequest(trace[n].At(t)) || trace[n].At(t).Idle?
  {
    if n - 1 == m {
      CleanRequestStaysClean(trace[m], steps[m]);
    } else {
      CleanSinceStart(trace, steps, m, n - 1, t);
      CleanOrIdle(trace[n - 1], steps[n - 1], t);
    }
  }

  /** Whatever path served it: what a thread that last started without DIRTY_OK, or from a prezeroed
      pool, hands to its client is zero over the requested pages. */
  lemma ZeroFillGuarantee(trace: seq<State>, steps: seq<Step>, m: nat, n: nat, p: Page)
    requires IsRun(trace, steps) && m < n < |steps| && steps[n].Deliver? && steps[m].t == steps[n].t
    requires StartsClean(steps[m])
    requires forall k :: m < k < n && steps[k].t == steps[n].t ==> !Starts(steps[k])
    requires exists i :: 0 <= i < |trace[n].At(steps[n].t).blocks| && trace[n].At(steps[n].t).blocks[i].Asked(p)
    ensures p in trace[n + 1].zero
  {
    CleanSinceStart(trace, steps, m, n, steps[n].t);
    ZeroedDeliveryIsZero(trace, steps, n, p);
  }

  /** The counter never underflows, and between two operations it is exact. */
  lemma PrezeroedCounterExact(trace: seq<State>, steps: seq<Step>, n: nat)
    requires IsRun(trace, steps) && n < |trace|
    ensures trace[n].prezCount + (if trace[n].prezLock.Some? then 1 else 0)
            == |trace[n].prez| + |Popped(trace[n])|
    ensures n < |steps| && steps[n].SubPrezeroed? ==>
              trace[n].prezCount > 0 && trace[n + 1].prezCount == trace[n].prezCount - 1
    ensures n < |steps| && steps[n].CountFill? ==> trace[n + 1].prezCount == trace[n].prezCount + 1
  {
    EveryRunIsSafe(trace, steps, n);
    if n < |steps| {
      StepKeepsCountOk(trace[n], steps[n]);
    }
  }

  /** In every run whose live stack pages never exceed the 256 slots, the registry is exactly the
      set of live stack pages. */
  lemma {:induction false} RegistryComplete(trace: seq<State>, steps: seq<Step>, n: nat)
    requires IsRun(trace, steps) && n < |trace|
    requires forall k :: 0 <= k <= n ==> |LivePages(trace[k])| <= REGISTRY_SIZE
    ensures Entries(trace[n].registry) == LivePages(trace[n])
  {
    if n == 0 {
      InitialIsGood(trace[0]);
    } else {
      RegistryComplete(trace, steps, n - 1);
      EveryRunIsSafe(trace, steps, n - 1);
      StepKeepsRegistryOk(trace[n - 1], steps[n - 1]);
    }
  }

  /** Refill pushes its buffer into the cache without looking at the push results.  It keeps every
      page exactly when the buffer still fits; a cache that other threads filled meanwhile makes
      it lose the rest. */
  lemma RefillKeepsAllPagesIffTheyFit(s: State, t: Tid)
    requires Enabled(s, FillCache(t)) && Inv(s)
    ensures (forall p :: p in s.At(t).buf ==> exists a :: IsAt(Next(s, FillCache(t)), p, a))
            <==> |s.cache| + |s.At(t).buf| <= PAGE_CACHE_SIZE
  {
    var s', buf := Next(s, FillCache(t)), s.At(t).buf;
    var kept := Min(|buf|, PAGE_CACHE_SIZE - |s.cache|);
    SpanOfOne();
    forall k | 0 <= k < |buf| ensures IsAt(s, buf[k], InFlight(t, k)) {
    }
    if kept < |buf| {
      var p := buf[kept];
      assert p in buf && IsAt(s, p, InFlight(t, kept));
      forall a ensures !IsAt(s', p, a) {
        if IsAt(s', p, a) {
          TracePushes(s, FillCache(t), p, a);
        }
      }
    } else {
      forall p | p in buf ensures exists a :: IsAt(s', p, a) {
        var k :| 0 <= k < |buf| && buf[k] == p;
        assert IsAt(s', p, InCache(|s.cache| + k));
      }
    }
  }

  // ---- A run that loses a page ----

  /** Two threads that allocate with DIRTY_OK while everything else is untouched. */
  function TwoThreads(buddy: set<Page>, cache: seq<Page>, a: Pc, b: Pc): State {
    State(buddy, cache, [], [], {}, {}, {}, map[0 := a, 1 := b], {}, seq(REGISTRY_SIZE, _ => 0), 0, None)
  }

  lemma RunGoesOn(trace: seq<State>, steps: seq<Step>, step: Step, next: State)
    requires IsRun(trace, steps) && Enabled(trace[|steps|], step) && Next(trace[|steps|], step) == next
    ensures IsRun(trace + [next], steps + [step])
  {
    var trace', steps' := trace + [next], steps + [step];
    forall i | 0 <= i < |steps'|
      ensures Enabled(trace'[i], steps'[i]) && trace'[i + 1] == Next(trace'[i], steps'[i])
    {
      if i < |steps| {
        assert trace'[i] == trace[i] && trace'[i + 1] == trace[i + 1] && steps'[i] == steps[i];
      }
    }
  }

  /** Thread `t`, alone awake, starts and finds the cache empty. */
  lemma Misses(trace0: seq<State>, steps0: seq<Step>, t: Tid, was: State, mid: State, end: State)
    returns (trace: seq<State>, steps: seq<Step>)
    requires IsRun(trace0, steps0) && trace0[|steps0|] == was && t in was.pc && was.At(t).Idle?
    requires mid == was.Go(t, TryCache(true)) && end == was.Go(t, RefillZones(true))
    ensures IsRun(trace, steps) && trace[|steps|] == end && trace[0] == trace0[0]
  {
    RunGoesOn(trace0, steps0, StartAlloc(t, true), mid);
    trace, steps := trace0 + [mid], steps0 + [StartAlloc(t, true)];
    assert Next(mid, SkipCache(t)).pc == end.pc;
    RunGoesOn(trace, steps, SkipCache(t), end);
    trace, steps := trace + [end], steps + [SkipCache(t)];
  }

  /** Both threads find the cache empty and go for the zones. */
  lemma BothMiss(buddy: set<Page>) returns (trace: seq<State>, steps: seq<Step>)
    requires 0 !in buddy
    ensures IsRun(trace, steps) && trace[0].buddy == buddy
    ensures trace[|steps|] == TwoThreads(buddy, [], RefillZones(true), RefillZones(true))
  {
    var s0 := TwoThreads(buddy, [], Idle, Idle);
    var s1 := s0.Go(0, RefillZones(true));
    trace, steps := Misses([s0], [], 0, s0, s0.Go(0, TryCache(true)), s1);
    trace, steps := Misses(trace, steps, 1, s1, s1.Go(1, TryCache(true)), s1.Go(1, RefillZones(true)));
    assert trace[|steps|].pc == map[0 := RefillZones(true), 1 := RefillZones(true)];
  }

  /** Both take their pages from the zones, and the first fills the whole cache. */
  lemma BothRefill(x: seq<Page>, y: seq<Page>) returns (trace: seq<State>, steps: seq<Step>)
    requires NoRepeats(x + y) && 0 !in x + y && |x| == PAGE_CACHE_SIZE && 0 < |y| <= PAGE_CACHE_SIZE
    ensures IsRun(trace, steps) && trace[0].buddy == Elements(x + y)
    ensures trace[|steps|] == TwoThreads({}, x, RetryCache(true), RefillCache(y, true))
  {
    var all := Elements(x + y);
    trace, steps := BothMiss(all);
    RefillsTake(x, y);
    var s1 := TwoThreads(Elements(y), [], RefillCache(x, true), RefillZones(true));
    RunGoesOn(trace, steps, Refill(0, x), s1);
    trace, steps := trace + [s1], steps + [Refill(0, x)];
    var s2 := TwoThreads({}, [], RefillCache(x, true), RefillCache(y, true));
    RunGoesOn(trace, steps, Refill(1, y), s2);
    trace, steps := trace + [s2], steps + [Refill(1, y)];
    var s3 := TwoThreads({}, x, RetryCache(true), RefillCache(y, true));
    assert [] + x[..|x|] == x;
    assert Next(s2, FillCache(0)).pc == s3.pc;
    RunGoesOn(trace, steps, FillCache(0), s3);
    trace, steps := trace + [s3], steps + [FillCache(0)];
  }

  lemma RefillsTake(x: seq<Page>, y: seq<Page>)
    requires NoRepeats(x + y) && x != [] && y != [] && |x| <= PAGE_CACHE_SIZE && |y| <= PAGE_CACHE_SIZE
    ensures var s, m := TwoThreads(Elements(x + y), [], RefillZones(true), RefillZones(true)),
                        TwoThreads(Elements(y), [], RefillCache(x, true), RefillZones(true));
            && Enabled(s, Refill(0, x)) && Next(s, Refill(0, x)) == m
            && Enabled(m, Refill(1, y)) && Next(m, Refill(1, y)) == TwoThreads({}, [], RefillCache(x, true), RefillCache(y, true))
  {
    var all := Elements(x + y);
    var s, m := TwoThreads(all, [], RefillZones(true), RefillZones(true)),
                TwoThreads(Elements(y), [], RefillCache(x, true), RefillZones(true));
    SplitElements(x, y);
    assert forall i :: 0 <= i < |x| ==> x[i] in Elements(x);
    assert forall i :: 0 <= i < |y| ==> y[i] in Elements(y);
    assert Next(s, Refill(0, x)).pc == m.pc;
    assert Next(m, Refill(1, y)).pc == map[0 := RefillCache(x, true), 1 := RefillCache(y, true)];
  }

  lemma SplitElements(x: seq<Page>, y: seq<Page>)
    requires NoRepeats(x + y)
    ensures Elements(x + y) == Elements(x) + Elements(y) && Elements(x + y) - Elements(x) == Elements(y)
    ensures Elements(y) - Elements(y) == {} && NoRepeats(x) && NoRepeats(y)
  {
    var all := x + y;
    assert forall i :: 0 <= i < |x| ==> all[i] == x[i];
    assert forall i :: 0 <= i < |y| ==> all[|x| + i] == y[i];
    forall p | p in Elements(x)
      ensures p in Elements(all) && p !in Elements(y)
    {
      var i :| 0 <= i < |x| && x[i] == p;
      assert all[i] == p;
    }
    forall p | p in Elements(y)
      ensures p in Elements(all)
    {
      var i :| 0 <= i < |y| && y[i] == p;
      assert all[|x| + i] == p;
    }
    forall p | p in Elements(all)
      ensures p in Elements(x) || p in Elements(y)
    {
      var i :| 0 <= i < |all| && all[i] == p;
      assert i < |x| ==> x[i] == p;
      assert i >= |x| ==> y[i - |x|] == p;
    }
  }

  /** The loss is reachable: two refills, both pushes, and a page that was free is nowhere. */
  lemma RefillCanLosePages() returns (trace: seq<State>, steps: seq<Step>, p: Page)
    ensures IsRun(trace, steps) && p in trace[0].buddy && forall a :: !IsAt(trace[|steps|], p, a)
  {
    var x, y := seq(PAGE_CACHE_SIZE, i requires i >= 0 => i + 1), [PAGE_CACHE_SIZE + 1];
    trace, steps := BothRefill(x, y);
    var s := trace[|steps|];
    EveryRunIsSafe(trace, steps, |steps|);
    var s' := Next(s, FillCache(1));
    RunGoesOn(trace, steps, FillCache(1), s');
    RefillKeepsAllPagesIffTheyFit(s, 1);
    assert |s.cache| + |y| > PAGE_CACHE_SIZE;
    p :| p in y && forall a :: !IsAt(s', p, a);
    SplitElements(x, y);
    assert y[0] in Elements(y);
    trace, steps := trace + [s'], steps + [FillCache(1)];
  }
}
