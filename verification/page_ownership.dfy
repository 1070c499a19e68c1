/** Where every physical page is, in every interleaving.  The machine has any number of threads
    inside the page allocator, the prezeroed-pool refill and the kernel-stack cache.  Each step is
    one lock hold or one atomic operation.  The relaxed hint counters that steer the fast paths
    are read as arbitrary values: both outcomes of every hint test are steps. */
module PageOwnership {
  import opened Common
  import opened Powers
  import opened StackRegistry

  const COUNTER_MAX: nat := 0xffff_ffff_ffff_ffff

  /** A page frame number; frame 0 is never managed. */
  type Page = nat
  type Tid = nat

  /** A request of `num` pages; it occupies `Span(num)` of them. */
  datatype Block = Block(base: Page, num: nat) {
    predicate Has(p: Page) { base <= p < base + Span(num) }
    predicate Asked(p: Page) { base <= p < base + num }
  }

  datatype Claim = Claim(tid: Tid, block: Block)

  /** Where a thread is.  A thread holds in flight the pages its state names. */
  datatype Pc =
    | Idle
      // alloc_page_inner, alloc_page_prezeroed
    | TryPrezeroed(only: bool)
    | PrezeroedGot(page: Page)
    | TryCache(dirtyOk: bool)
    | RefillZones(dirtyOk: bool)
    | RefillCache(buf: seq<Page>, dirtyOk: bool)
    | RetryCache(dirtyOk: bool)
    | CacheGot(page: Page, dirtyOk: bool)
      // alloc_page_batch
    | BatchCache(max: nat)
    | BatchZones(got: seq<Page>, max: nat)
      // alloc_pages_inner
    | MultiZones(num: nat, dirtyOk: bool)
    | MultiGot(block: Block, dirtyOk: bool)
    | Returning(blocks: seq<Block>, zeroed: bool)
      // free_pages, free_huge_page_and_zero
    | Freeing(block: Block)
    | FreeZones(block: Block)
    | HugeFreeing(block: Block)
    | HugeZeroed(block: Block)
      // prefill_prezeroed_pages, refill_prezeroed_pages
    | FillZeroing(page: Page)
    | FillZeroed(page: Page)
    | FillCounting
      // alloc_kernel_stack, free_kernel_stack
    | StackInstalling(block: Block)
    | StackFreed(block: Block)

  function Singles(pages: seq<Page>): (bs: seq<Block>)
    ensures |bs| == |pages| && forall i :: 0 <= i < |pages| ==> bs[i] == Block(pages[i], 1)
  {
    seq(|pages|, i requires 0 <= i < |pages| => Block(pages[i], 1))
  }

  function Holds(pc: Pc): seq<Block> {
    match pc
    case PrezeroedGot(p) => [Block(p, 1)]
    case RefillCache(buf, _) => Singles(buf)
    case CacheGot(p, _) => [Block(p, 1)]
    case BatchZones(got, _) => Singles(got)
    case MultiGot(b, _) => [b]
    case Returning(bs, _) => bs
    case Freeing(b) => [b]
    case FreeZones(b) => [b]
    case HugeFreeing(b) => [b]
    case HugeZeroed(b) => [b]
    case FillZeroing(p) => [Block(p, 1)]
    case FillZeroed(p) => [Block(p, 1)]
    case StackInstalling(b) => [b]
    case StackFreed(b) => [b]
    case _ => []
  }

  datatype State = State(
    buddy: set<Page>,           // free in some zone
    cache: seq<Page>,           // PAGE_CACHE
    prez: seq<Page>,            // PREZEROED_4K_POOL
    huge: seq<Page>,            // PREZEROED_HUGE_POOL, base pages
    parked: set<Block>,         // kernel stacks in the size caches
    live: set<Block>,           // kernel stacks in use
    owned: set<Claim>,          // blocks the clients own
    pc: map<Tid, Pc>,
    zero: set<Page>,            // pages whose every byte is zero
    registry: Slots,            // STACK_REGISTRY
    prezCount: nat,             // PREZEROED_4K_COUNT
    prezLock: Option<Tid>       // held across push and count
  ) {
    function At(t: Tid): Pc {
      if t in pc then pc[t] else Idle
    }

    function Go(t: Tid, to: Pc): State {
      this.(pc := pc[t := to])
    }
  }

  datatype Step =
    | StartAlloc(t: Tid, dirtyOk: bool) | StartPrezeroedOnly(t: Tid)
    | PopPrezeroed(t: Tid) | SkipPrezeroed(t: Tid) | SubPrezeroed(t: Tid)
    | PopCache(t: Tid) | SkipCache(t: Tid) | FinishCache(t: Tid)
    | Refill(t: Tid, buf: seq<Page>) | FillCache(t: Tid)
    | StartBatch(t: Tid, max: nat) | DrainCache(t: Tid, hint: bool) | BatchTake(t: Tid, buf: seq<Page>)
    | StartMulti(t: Tid, num: nat, dirtyOk: bool) | TakeBlock(t: Tid, base: Page) | NoBlock(t: Tid)
    | FinishMulti(t: Tid) | PopHuge(t: Tid) | Deliver(t: Tid)
    | HandOver(t: Tid, block: Block, to: Tid)
    | StartFree(t: Tid, block: Block) | FreeToCache(t: Tid) | SkipToZones(t: Tid) | GiveBack(t: Tid)
    | StartHugeFree(t: Tid, base: Page) | ZeroHuge(t: Tid) | ParkHuge(t: Tid)
    | StartFill(t: Tid, page: Page) | ZeroFill(t: Tid) | PushFill(t: Tid) | CountFill(t: Tid)
    | AdoptStack(t: Tid, block: Block) | UnparkStack(t: Tid, block: Block) | RegisterStack(t: Tid)
    | UnregisterStack(t: Tid, block: Block) | ParkStack(t: Tid) | DropStack(t: Tid)
    | Scribble(t: Tid, pages: set<Page>, clean: bool)

  predicate NoRepeats(pages: seq<Page>) {
    forall i, j :: 0 <= i < j < |pages| ==> pages[i] != pages[j]
  }

  ghost function Pages(b: Block): set<Page> {
    set p | 0 <= p < b.base + Span(b.num) && b.Has(p)
  }

  ghost function AskedPages(b: Block): set<Page> {
    set p | 0 <= p < b.base + b.num && b.Asked(p)
  }

  ghost predicate FromBuddy(s: State, buf: seq<Page>) {
    NoRepeats(buf) && forall i :: 0 <= i < |buf| ==> buf[i] in s.buddy
  }

  ghost function Elements(buf: seq<Page>): set<Page> {
    set i | 0 <= i < |buf| :: buf[i]
  }

  /** Pages somebody may be writing to: a client's, a running stack's, or a free block's (the
      buddy allocator keeps its list links inside free pages). */
  ghost predicate Writable(s: State, p: Page) {
    || p in s.buddy
    || (exists c :: c in s.owned && c.block.Has(p))
    || (exists b :: b in s.live && b.Has(p))
  }

  ghost predicate Enabled(s: State, step: Step) {
    var pc := s.At(step.t);
    && step.t in s.pc
    && match step
       case StartAlloc(_, _) => pc.Idle?
       case StartPrezeroedOnly(_) => pc.Idle?
       case PopPrezeroed(_) => pc.TryPrezeroed? && s.prezLock.None? && |s.prez| > 0
       case SkipPrezeroed(_) => pc.TryPrezeroed?
       case SubPrezeroed(_) => pc.PrezeroedGot?
       case PopCache(_) => (pc.TryCache? || pc.RetryCache?) && |s.cache| > 0
       case SkipCache(_) => pc.TryCache? || (pc.RetryCache? && s.cache == [])
       case FinishCache(_) => pc.CacheGot?
       case Refill(_, buf) => pc.RefillZones? && FromBuddy(s, buf) && |buf| <= PAGE_CACHE_SIZE
       case FillCache(_) => pc.RefillCache?
       case StartBatch(_, _) => pc.Idle?
       case DrainCache(_, _) => pc.BatchCache?
       case BatchTake(_, buf) => pc.BatchZones? && FromBuddy(s, buf) && |pc.got| + |buf| <= pc.max
       case StartMulti(_, num, _) => pc.Idle? && num != 1
       case TakeBlock(_, base) =>
         pc.MultiZones? && Pages(Block(base, pc.num)) <= s.buddy && base % Span(pc.num) == 0
       case NoBlock(_) => pc.MultiZones?
       case FinishMulti(_) => pc.MultiGot?
       case PopHuge(_) => pc.Idle? && |s.huge| > 0
       case Deliver(_) => pc.Returning?
       case HandOver(t, b, _) => Claim(t, b) in s.owned
       case StartFree(t, b) => pc.Idle? && Claim(t, b) in s.owned
       case FreeToCache(_) => pc.Freeing? && pc.block.num == 1 && |s.cache| < PAGE_CACHE_SIZE
       case SkipToZones(_) => pc.Freeing?
       case GiveBack(_) => pc.FreeZones?
       case StartHugeFree(t, base) => pc.Idle? && Claim(t, Block(base, HUGE_PAGES)) in s.owned
       case ZeroHuge(_) => pc.HugeFreeing?
       case ParkHuge(_) => pc.HugeZeroed?
       case StartFill(t, p) => pc.Idle? && Claim(t, Block(p, 1)) in s.owned
       case ZeroFill(_) => pc.FillZeroing?
       case PushFill(_) => pc.FillZeroed? && s.prezLock.None?
       case CountFill(_) => pc.FillCounting?
       case AdoptStack(t, b) => pc.Idle? && Claim(t, b) in s.owned
       case UnparkStack(_, b) => pc.Idle? && b in s.parked
       case RegisterStack(_) => pc.StackInstalling?
       case UnregisterStack(_, b) => pc.Idle? && b in s.live
       case ParkStack(_) => pc.StackFreed?
       case DropStack(_) => pc.StackFreed?
       case Scribble(_, pages, _) => forall p :: p in pages ==> Writable(s, p)
  }

  function Drained(cache: seq<Page>, n: nat): (got: seq<Page>)
    requires n <= |cache|
    ensures |got| == n && forall i :: 0 <= i < n ==> got[i] == cache[|cache| - 1 - i]
  {
    seq(n, i requires 0 <= i < n => cache[|cache| - 1 - i])
  }

  ghost function Next(s: State, step: Step): State
    requires Enabled(s, step)
  {
    var t := step.t;
    var pc := s.At(t);
    match step
    case StartAlloc(_, dirtyOk) => s.Go(t, if dirtyOk then TryCache(true) else TryPrezeroed(false))
    case StartPrezeroedOnly(_) => s.Go(t, TryPrezeroed(true))
    case PopPrezeroed(_) =>
      var n := |s.prez| - 1;
      s.(prez := s.prez[..n]).Go(t, PrezeroedGot(s.prez[n]))
    case SkipPrezeroed(_) => s.Go(t, if pc.only then Idle else TryCache(false))
    case SubPrezeroed(_) =>
      s.(prezCount := if s.prezCount == 0 then COUNTER_MAX else s.prezCount - 1)
      .Go(t, Returning([Block(pc.page, 1)], true))
    case PopCache(_) =>
      var n := |s.cache| - 1;
      s.(cache := s.cache[..n]).Go(t, CacheGot(s.cache[n], pc.dirtyOk))
    case SkipCache(_) => s.Go(t, if pc.TryCache? then RefillZones(pc.dirtyOk) else Idle)
    case FinishCache(_) =>
      s.(zero := if pc.dirtyOk then s.zero else s.zero + {pc.page})
      .Go(t, Returning([Block(pc.page, 1)], !pc.dirtyOk))
    case Refill(_, buf) =>
      s.(buddy := s.buddy - Elements(buf)).Go(t, if buf == [] then Idle else RefillCache(buf, pc.dirtyOk))
    case FillCache(_) =>
      s.(cache := s.cache + pc.buf[..Min(|pc.buf|, PAGE_CACHE_SIZE - Min(|s.cache|, PAGE_CACHE_SIZE))])
      .Go(t, RetryCache(pc.dirtyOk))
    case StartBatch(_, max) => s.Go(t, BatchCache(max))
    case DrainCache(_, hint) =>
      var n := if hint then Min(pc.max, |s.cache|) else 0;
      s.(cache := s.cache[..|s.cache| - n]).Go(t, BatchZones(Drained(s.cache, n), pc.max))
    case BatchTake(_, buf) =>
      s.(buddy := s.buddy - Elements(buf)).Go(t, Returning(Singles(pc.got + buf), false))
    case StartMulti(_, num, dirtyOk) => s.Go(t, MultiZones(num, dirtyOk))
    case TakeBlock(_, base) =>
      var b := Block(base, pc.num);
      s.(buddy := s.buddy - Pages(b)).Go(t, MultiGot(b, pc.dirtyOk))
    case NoBlock(_) => s.Go(t, Idle)
    case FinishMulti(_) =>
      s.(zero := if pc.dirtyOk then s.zero else s.zero + AskedPages(pc.block))
      .Go(t, Returning([pc.block], !pc.dirtyOk))
    case PopHuge(_) =>
      var n := |s.huge| - 1;
      s.(huge := s.huge[..n]).Go(t, Returning([Block(s.huge[n], HUGE_PAGES)], true))
    case Deliver(_) =>
      s.(owned := s.owned + set i | 0 <= i < |pc.blocks| :: Claim(t, pc.blocks[i])).Go(t, Idle)
    case HandOver(_, b, to) => s.(owned := s.owned - {Claim(t, b)} + {Claim(to, b)})
    case StartFree(_, b) => s.(owned := s.owned - {Claim(t, b)}).Go(t, Freeing(b))
    case FreeToCache(_) => s.(cache := s.cache + [pc.block.base]).Go(t, Idle)
    case SkipToZones(_) => s.Go(t, FreeZones(pc.block))
    case GiveBack(_) => s.(buddy := s.buddy + Pages(pc.block)).Go(t, Idle)
    case StartHugeFree(_, base) =>
      var b := Block(base, HUGE_PAGES);
      s.(owned := s.owned - {Claim(t, b)}).Go(t, HugeFreeing(b))
    case ZeroHuge(_) => s.(zero := s.zero + Pages(pc.block)).Go(t, HugeZeroed(pc.block))
    case ParkHuge(_) =>
      if |s.huge| < PREZEROED_HUGE_POOL_SIZE then s.(huge := s.huge + [pc.block.base]).Go(t, Idle)
      else s.Go(t, Freeing(pc.block))
    case StartFill(_, p) => s.(owned := s.owned - {Claim(t, Block(p, 1))}).Go(t, FillZeroing(p))
    case ZeroFill(_) => s.(zero := s.zero + {pc.page}).Go(t, FillZeroed(pc.page))
    case PushFill(_) =>
      if |s.prez| < PREZEROED_4K_POOL_SIZE
      then s.(prez := s.prez + [pc.page], prezLock := Some(t)).Go(t, FillCounting)
      else s.Go(t, Freeing(Block(pc.page, 1)))
    case CountFill(_) =>
      s.(prezCount := if s.prezCount == COUNTER_MAX then 0 else s.prezCount + 1, prezLock := None).Go(t, Idle)
    case AdoptStack(_, b) => s.(owned := s.owned - {Claim(t, b)}).Go(t, StackInstalling(b))
    case UnparkStack(_, b) => s.(parked := s.parked - {b}).Go(t, StackInstalling(b))
    case RegisterStack(_) =>
      s.(live := s.live + {pc.block}, zero := s.zero - {pc.block.base},
         registry := PutRange(s.registry, pc.block.base, pc.block.num)).Go(t, Idle)
    case UnregisterStack(_, b) =>
      s.(live := s.live - {b}, registry := ClearRange(s.registry, b.base, b.num)).Go(t, StackFreed(b))
    case ParkStack(_) => s.(parked := s.parked + {pc.block}).Go(t, Idle)
    case DropStack(_) => s.Go(t, Freeing(pc.block))
    case Scribble(_, pages, clean) => s.(zero := if clean then s.zero + pages else s.zero - pages)
  }

  // ---- Single ownership ----

  datatype Place =
    | InBuddy | InCache(i: nat) | InPrezeroed(i: nat) | InHuge(i: nat)
    | Parked(block: Block) | Live(block: Block) | Owned(claim: Claim) | InFlight(t: Tid, i: nat)

  ghost predicate IsAt(s: State, p: Page, a: Place) {
    match a
    case InBuddy => p in s.buddy
    case InCache(i) => i < |s.cache| && s.cache[i] == p
    case InPrezeroed(i) => i < |s.prez| && s.prez[i] == p
    case InHuge(i) => i < |s.huge| && Block(s.huge[i], HUGE_PAGES).Has(p)
    case Parked(b) => b in s.parked && b.Has(p)
    case Live(b) => b in s.live && b.Has(p)
    case Owned(c) => c in s.owned && c.block.Has(p)
    case InFlight(t, i) => i < |Holds(s.At(t))| && Holds(s.At(t))[i].Has(p)
  }

  /** No page is in two places. */
  ghost predicate SinglePlace(s: State) {
    forall p, a, b :: IsAt(s, p, a) && IsAt(s, p, b) ==> a == b
  }

  function IndexOf(bs: seq<Block>, b: Block): (i: nat)
    requires b in bs
    ensures i < |bs| && bs[i] == b
  {
    if bs[0] == b then 0 else 1 + IndexOf(bs[1..], b)
  }

  /** Where a page that is at place `a` after the step was before it. */
  ghost function Origin(s: State, step: Step, p: Page, a: Place): Place
    requires Enabled(s, step)
  {
    var t := step.t;
    var pc := s.At(t);
    var mine := a.InFlight? && a.t == t;
    match step
    case PopPrezeroed(_) => if mine then InPrezeroed(|s.prez| - 1) else a
    case PopCache(_) => if mine then InCache(|s.cache| - 1) else a
    case Refill(_, _) => if mine then InBuddy else a
    case FillCache(_) => if a.InCache? && a.i >= |s.cache| then InFlight(t, a.i - |s.cache|) else a
    case DrainCache(_, _) => if mine && a.i < |s.cache| then InCache(|s.cache| - 1 - a.i) else a
    case BatchTake(_, _) => if mine && a.i >= |pc.got| then InBuddy else a
    case TakeBlock(_, _) => if mine then InBuddy else a
    case PopHuge(_) => if mine then InHuge(|s.huge| - 1) else a
    case Deliver(_) =>
      if a.Owned? && a.claim !in s.owned && a.claim.block in pc.blocks
      then InFlight(t, IndexOf(pc.blocks, a.claim.block)) else a
    case HandOver(_, b, to) => if a == Owned(Claim(to, b)) then Owned(Claim(t, b)) else a
    case StartFree(_, b) => if mine then Owned(Claim(t, b)) else a
    case FreeToCache(_) => if a == InCache(|s.cache|) then InFlight(t, 0) else a
    case GiveBack(_) => if a.InBuddy? && p !in s.buddy then InFlight(t, 0) else a
    case StartHugeFree(_, base) => if mine then Owned(Claim(t, Block(base, HUGE_PAGES))) else a
    case ParkHuge(_) => if a == InHuge(|s.huge|) then InFlight(t, 0) else a
    case StartFill(_, q) => if mine then Owned(Claim(t, Block(q, 1))) else a
    case PushFill(_) => if a == InPrezeroed(|s.prez|) then InFlight(t, 0) else a
    case AdoptStack(_, b) => if mine then Owned(Claim(t, b)) else a
    case UnparkStack(_, b) => if mine then Parked(b) else a
    case RegisterStack(_) => if a == Live(pc.block) && pc.block !in s.live then InFlight(t, 0) else a
    case UnregisterStack(_, b) => if mine then Live(b) else a
    case ParkStack(_) => if a == Parked(pc.block) && pc.block !in s.parked then InFlight(t, 0) else a
    case _ => a
  }

  /** Blocks in the 2 MB paths are 2 MB blocks. */
  predicate HugeBlock(pc: Pc) {
    pc.HugeFreeing? || pc.HugeZeroed? ==> pc.block.num == HUGE_PAGES
  }

  ghost predicate HugeSized(s: State) {
    forall t :: t in s.pc ==> HugeBlock(s.pc[t])
  }

  lemma SpanOfOne()
    ensures Span(1) == 1 && forall p: Page, q: Page :: Block(p, 1).Has(q) <==> p == q
  {
  }

  datatype Kind = Pops | Drains | Zones | Pushes | Parks | Claims | Releases | Stacks | Returns | Hands | Still

  /** What a step moves pages between. */
  function KindOf(step: Step): Kind {
    match step
    case PopPrezeroed(_) => Pops case PopCache(_) => Pops case PopHuge(_) => Pops case DrainCache(_, _) => Drains
    case Refill(_, _) => Zones case BatchTake(_, _) => Zones case TakeBlock(_, _) => Zones case GiveBack(_) => Zones
    case FillCache(_) => Pushes case FreeToCache(_) => Pushes case ParkHuge(_) => Parks case PushFill(_) => Pushes
    case Deliver(_) => Claims case HandOver(_, _, _) => Claims
    case StartFree(_, _) => Releases case StartHugeFree(_, _) => Releases
    case StartFill(_, _) => Releases case AdoptStack(_, _) => Releases
    case UnparkStack(_, _) => Stacks case RegisterStack(_) => Stacks
    case UnregisterStack(_, _) => Stacks case ParkStack(_) => Stacks
    case SubPrezeroed(_) => Returns case FinishCache(_) => Returns case FinishMulti(_) => Returns
    case SkipToZones(_) => Hands case ZeroHuge(_) => Hands case ZeroFill(_) => Hands case DropStack(_) => Hands
    case _ => Still
  }

  lemma TracePops(s: State, step: Step, p: Page, a: Place)
    requires Enabled(s, step) && IsAt(Next(s, step), p, a) && KindOf(step) == Pops
    ensures IsAt(s, p, Origin(s, step, p, a))
  {
    SpanOfOne();
  }

  lemma TraceDrains(s: State, step: Step, p: Page, a: Place)
    requires Enabled(s, step) && IsAt(Next(s, step), p, a) && KindOf(step) == Drains
    ensures IsAt(s, p, Origin(s, step, p, a))
  {
    SpanOfOne();
  }

  lemma TraceZones(s: State, step: Step, p: Page, a: Place)
    requires Enabled(s, step) && IsAt(Next(s, step), p, a) && KindOf(step) == Zones
    ensures IsAt(s, p, Origin(s, step, p, a))
  {
    SpanOfOne();
  }

  lemma TracePushes(s: State, step: Step, p: Page, a: Place)
    requires Enabled(s, step) && IsAt(Next(s, step), p, a) && KindOf(step) == Pushes
    ensures IsAt(s, p, Origin(s, step, p, a))
  {
    SpanOfOne();
  }

  lemma TraceParks(s: State, step: Step, p: Page, a: Place)
    requires Enabled(s, step) && HugeBlock(s.At(step.t)) && IsAt(Next(s, step), p, a) && KindOf(step) == Parks
    ensures IsAt(s, p, Origin(s, step, p, a))
  {
  }

  lemma TraceClaims(s: State, step: Step, p: Page, a: Place)
    requires Enabled(s, step) && IsAt(Next(s, step), p, a) && KindOf(step) == Claims
    ensures IsAt(s, p, Origin(s, step, p, a))
  {
  }

  lemma TraceReleases(s: State, step: Step, p: Page, a: Place)
    requires Enabled(s, step) && IsAt(Next(s, step), p, a) && KindOf(step) == Releases
    ensures IsAt(s, p, Origin(s, step, p, a))
  {
  }

  lemma TraceStacks(s: State, step: Step, p: Page, a: Place)
    requires Enabled(s, step) && IsAt(Next(s, step), p, a) && KindOf(step) == Stacks
    ensures IsAt(s, p, Origin(s, step, p, a))
  {
  }

  lemma TraceHands(s: State, step: Step, p: Page, a: Place)
    requires Enabled(s, step) && IsAt(Next(s, step), p, a) && KindOf(step) == Hands
    ensures IsAt(s, p, Origin(s, step, p, a))
  {
    SpanOfOne();
  }

  lemma TraceReturns(s: State, step: Step, p: Page, a: Place)
    requires Enabled(s, step) && IsAt(Next(s, step), p, a) && KindOf(step) == Returns
    ensures IsAt(s, p, Origin(s, step, p, a))
  {
    SpanOfOne();
  }

  lemma TraceStill(s: State, step: Step, p: Page, a: Place)
    requires Enabled(s, step) && IsAt(Next(s, step), p, a) && KindOf(step) == Still
    ensures IsAt(s, p, Origin(s, step, p, a))
  {
  }

  /** Nothing appears from nowhere: a page at a place after a step was at that place's origin. */
  lemma StepTraces(s: State, step: Step, p: Page, a: Place)
    requires Enabled(s, step) && HugeSized(s) && IsAt(Next(s, step), p, a)
    ensures IsAt(s, p, Origin(s, step, p, a))
  {
    match KindOf(step) {
      case Pops => TracePops(s, step, p, a);
      case Drains => TraceDrains(s, step, p, a);
      case Zones => TraceZones(s, step, p, a);
      case Pushes => TracePushes(s, step, p, a);
      case Parks => TraceParks(s, step, p, a);
      case Claims => TraceClaims(s, step, p, a);
      case Releases => TraceReleases(s, step, p, a);
      case Stacks => TraceStacks(s, step, p, a);
      case Returns => TraceReturns(s, step, p, a);
      case Hands => TraceHands(s, step, p, a);
      case Still => TraceStill(s, step, p, a);
    }
  }

  lemma SeparatePops(s: State, step: Step, p: Page, a: Place, b: Place)
    requires Enabled(s, step) && KindOf(step) == Pops
    requires IsAt(Next(s, step), p, a) && IsAt(Next(s, step), p, b)
    requires Origin(s, step, p, a) == Origin(s, step, p, b)
    ensures a == b
  {
  }

  lemma SeparateDrains(s: State, step: Step, p: Page, a: Place, b: Place)
    requires Enabled(s, step) && KindOf(step) == Drains
    requires IsAt(Next(s, step), p, a) && IsAt(Next(s, step), p, b)
    requires Origin(s, step, p, a) == Origin(s, step, p, b)
    ensures a == b
  {
    var n := |s.cache| - |Next(s, step).cache|;
    assert |Holds(Next(s, step).At(step.t))| == n;
  }

  lemma SeparateZones(s: State, step: Step, p: Page, a: Place, b: Place)
    requires Enabled(s, step) && KindOf(step) == Zones
    requires IsAt(Next(s, step), p, a) && IsAt(Next(s, step), p, b)
    requires Origin(s, step, p, a) == Origin(s, step, p, b)
    ensures a == b
  {
    SpanOfOne();
  }

  lemma SeparatePushes(s: State, step: Step, p: Page, a: Place, b: Place)
    requires Enabled(s, step) && KindOf(step) == Pushes
    requires IsAt(Next(s, step), p, a) && IsAt(Next(s, step), p, b)
    requires Origin(s, step, p, a) == Origin(s, step, p, b)
    ensures a == b
  {
    SpanOfOne();
  }

  lemma SeparateParks(s: State, step: Step, p: Page, a: Place, b: Place)
    requires Enabled(s, step) && KindOf(step) == Parks
    requires IsAt(Next(s, step), p, a) && IsAt(Next(s, step), p, b)
    requires Origin(s, step, p, a) == Origin(s, step, p, b)
    ensures a == b
  {
  }

  lemma SeparateClaims(s: State, step: Step, p: Page, a: Place, b: Place)
    requires Enabled(s, step) && KindOf(step) == Claims
    requires IsAt(Next(s, step), p, a) && IsAt(Next(s, step), p, b)
    requires Origin(s, step, p, a) == Origin(s, step, p, b)
    ensures a == b
  {
  }

  lemma SeparateReleases(s: State, step: Step, p: Page, a: Place, b: Place)
    requires Enabled(s, step) && KindOf(step) == Releases
    requires IsAt(Next(s, step), p, a) && IsAt(Next(s, step), p, b)
    requires Origin(s, step, p, a) == Origin(s, step, p, b)
    ensures a == b
  {
  }

  lemma SeparateStacks(s: State, step: Step, p: Page, a: Place, b: Place)
    requires Enabled(s, step) && KindOf(step) == Stacks
    requires IsAt(Next(s, step), p, a) && IsAt(Next(s, step), p, b)
    requires Origin(s, step, p, a) == Origin(s, step, p, b)
    ensures a == b
  {
  }

  /** Two places of one page after a step had different origins. */
  lemma StepSeparates(s: State, step: Step, p: Page, a: Place, b: Place)
    requires Enabled(s, step)
    requires IsAt(Next(s, step), p, a) && IsAt(Next(s, step), p, b)
    requires Origin(s, step, p, a) == Origin(s, step, p, b)
    ensures a == b
  {
    match KindOf(step) {
      case Pops => SeparatePops(s, step, p, a, b);
      case Drains => SeparateDrains(s, step, p, a, b);
      case Zones => SeparateZones(s, step, p, a, b);
      case Pushes => SeparatePushes(s, step, p, a, b);
      case Parks => SeparateParks(s, step, p, a, b);
      case Claims => SeparateClaims(s, step, p, a, b);
      case Releases => SeparateReleases(s, step, p, a, b);
      case Stacks => SeparateStacks(s, step, p, a, b);
      case Returns =>
      case Hands =>
      case Still =>
    }
  }

  lemma StepKeepsSinglePlace(s: State, step: Step)
    requires Enabled(s, step) && HugeSized(s) && SinglePlace(s)
    ensures SinglePlace(Next(s, step))
  {
    forall p, a, b | IsAt(Next(s, step), p, a) && IsAt(Next(s, step), p, b) ensures a == b {
      StepTraces(s, step, p, a);
      StepTraces(s, step, p, b);
      StepSeparates(s, step, p, a, b);
    }
  }
}
