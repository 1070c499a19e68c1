/** No page is lost and every request gets what it asked for, in every interleaving. */
module PageConservation {
  import opened Common
  import opened Powers
  import opened StackRegistry
  import opened PageOwnership
  import opened PageSafety

  // ---- Where pages go ----

  function IndexIn(buf: seq<Page>, p: Page): (i: nat)
    requires p in buf
    ensures i < |buf| && buf[i] == p
  {
    if buf[0] == p then 0 else 1 + IndexIn(buf[1..], p)
  }

  /** Where a page at place `a` is after the step. */
  ghost function Target(s: State, step: Step, p: Page, a: Place): Place
    requires Enabled(s, step)
  {
    var t := step.t;
    var pc := s.At(t);
    var mine := a.InFlight? && a.t == t;
    match step
    case PopPrezeroed(_) => if a == InPrezeroed(|s.prez| - 1) then InFlight(t, 0) else a
    case PopCache(_) => if a == InCache(|s.cache| - 1) then InFlight(t, 0) else a
    case PopHuge(_) => if a == InHuge(|s.huge| - 1) then InFlight(t, 0) else a
    case DrainCache(_, hint) =>
      var n := if hint then Min(pc.max, |s.cache|) else 0;
      if a.InCache? && |s.cache| - n <= a.i < |s.cache| then InFlight(t, |s.cache| - 1 - a.i) else a
    case Refill(_, buf) => if a.InBuddy? && p in buf then InFlight(t, IndexIn(buf, p)) else a
    case BatchTake(_, buf) => if a.InBuddy? && p in buf then InFlight(t, |pc.got| + IndexIn(buf, p)) else a
    case TakeBlock(_, base) => if a.InBuddy? && Block(base, pc.num).Has(p) then InFlight(t, 0) else a
    case GiveBack(_) => if mine then InBuddy else a
    case FillCache(_) => if mine then InCache(|s.cache| + a.i) else a
    case FreeToCache(_) => if mine then InCache(|s.cache|) else a
    case ParkHuge(_) => if mine && |s.huge| < PREZEROED_HUGE_POOL_SIZE then InHuge(|s.huge|) else a
    case PushFill(_) => if mine && |s.prez| < PREZEROED_4K_POOL_SIZE then InPrezeroed(|s.prez|) else a
    case Deliver(_) => if mine && a.i < |pc.blocks| then Owned(Claim(t, pc.blocks[a.i])) else a
    case HandOver(_, b, to) => if a == Owned(Claim(t, b)) then Owned(Claim(to, b)) else a
    case StartFree(_, b) => if a == Owned(Claim(t, b)) then InFlight(t, 0) else a
    case StartHugeFree(_, base) => if a == Owned(Claim(t, Block(base, HUGE_PAGES))) then InFlight(t, 0) else a
    case StartFill(_, q) => if a == Owned(Claim(t, Block(q, 1))) then InFlight(t, 0) else a
    case AdoptStack(_, b) => if a == Owned(Claim(t, b)) then InFlight(t, 0) else a
    case UnparkStack(_, b) => if a == Parked(b) then InFlight(t, 0) else a
    case RegisterStack(_) => if mine then Live(pc.block) else a
    case UnregisterStack(_, b) => if a == Live(b) then InFlight(t, 0) else a
    case ParkStack(_) => if mine then Parked(pc.block) else a
    case _ => a
  }

  /** All pages of a refill fit into the cache. */
  predicate RefillFits(s: State, step: Step) {
    step.FillCache? && s.At(step.t).RefillCache? ==> |s.cache| + |s.At(step.t).buf| <= PAGE_CACHE_SIZE
  }

  lemma KeepsPopped(s: State, step: Step, p: Page, a: Place)
    requires Enabled(s, step) && IsAt(s, p, a) && (step.PopPrezeroed? || step.PopCache?)
    ensures IsAt(Next(s, step), p, Target(s, step, p, a))
  {
    SpanOfOne();
  }

  lemma KeepsPops(s: State, step: Step, p: Page, a: Place)
    requires Enabled(s, step) && IsAt(s, p, a) && KindOf(step) == Pops
    ensures IsAt(Next(s, step), p, Target(s, step, p, a))
  {
    if !step.PopHuge? {
      KeepsPopped(s, step, p, a);
    }
  }

  lemma KeepsDrained(s: State, t: Tid, hint: bool, p: Page, i: nat)
    requires Enabled(s, DrainCache(t, hint)) && IsAt(s, p, InCache(i))
    ensures IsAt(Next(s, DrainCache(t, hint)), p, Target(s, DrainCache(t, hint), p, InCache(i)))
  {
    SpanOfOne();
  }

  lemma KeepsUndrained(s: State, t: Tid, hint: bool, p: Page, a: Place)
    requires Enabled(s, DrainCache(t, hint)) && IsAt(s, p, a) && !a.InCache?
    ensures IsAt(Next(s, DrainCache(t, hint)), p, a)
  {
  }

  lemma KeepsDrains(s: State, step: Step, p: Page, a: Place)
    requires Enabled(s, step) && IsAt(s, p, a) && KindOf(step) == Drains
    ensures IsAt(Next(s, step), p, Target(s, step, p, a))
  {
    if a.InCache? {
      KeepsDrained(s, step.t, step.hint, p, a.i);
    } else {
      KeepsUndrained(s, step.t, step.hint, p, a);
    }
  }

  lemma KeepsZones(s: State, step: Step, p: Page, a: Place)
    requires Enabled(s, step) && IsAt(s, p, a) && KindOf(step) == Zones
    ensures IsAt(Next(s, step), p, Target(s, step, p, a))
  {
    SpanOfOne();
  }

  lemma KeepsPushes(s: State, step: Step, p: Page, a: Place)
    requires Enabled(s, step) && IsAt(s, p, a) && KindOf(step) == Pushes && RefillFits(s, step)
    ensures IsAt(Next(s, step), p, Target(s, step, p, a))
  {
    SpanOfOne();
  }

  lemma KeepsParked(s: State, t: Tid, p: Page, i: nat)
    requires Enabled(s, ParkHuge(t)) && IsAt(s, p, InFlight(t, i)) && HugeBlock(s.At(t))
    ensures IsAt(Next(s, ParkHuge(t)), p, Target(s, ParkHuge(t), p, InFlight(t, i)))
  {
  }

  lemma KeepsUnparked(s: State, t: Tid, p: Page, a: Place)
    requires Enabled(s, ParkHuge(t)) && IsAt(s, p, a) && !(a.InFlight? && a.t == t)
    ensures IsAt(Next(s, ParkHuge(t)), p, a)
  {
  }

  lemma KeepsParks(s: State, step: Step, p: Page, a: Place)
    requires Enabled(s, step) && IsAt(s, p, a) && KindOf(step) == Parks && HugeBlock(s.At(step.t))
    ensures IsAt(Next(s, step), p, Target(s, step, p, a))
  {
    if a.InFlight? && a.t == step.t {
      KeepsParked(s, step.t, p, a.i);
    } else {
      KeepsUnparked(s, step.t, p, a);
    }
  }

  lemma KeepsClaims(s: State, step: Step, p: Page, a: Place)
    requires Enabled(s, step) && IsAt(s, p, a) && KindOf(step) == Claims
    ensures IsAt(Next(s, step), p, Target(s, step, p, a))
  {
  }

  /** The claim a client gives up. */
  function GivenUp(step: Step): Claim
    requires KindOf(step) == Releases
  {
    match step
    case StartFree(t, b) => Claim(t, b)
    case StartHugeFree(t, base) => Claim(t, Block(base, HUGE_PAGES))
    case StartFill(t, p) => Claim(t, Block(p, 1))
    case AdoptStack(t, b) => Claim(t, b)
  }

  lemma KeepsGivenUp(s: State, step: Step, p: Page)
    requires Enabled(s, step) && KindOf(step) == Releases && IsAt(s, p, Owned(GivenUp(step)))
    ensures IsAt(Next(s, step), p, InFlight(step.t, 0))
  {
  }

  lemma KeepsUntouched(s: State, step: Step, p: Page, a: Place)
    requires Enabled(s, step) && KindOf(step) == Releases && IsAt(s, p, a) && a != Owned(GivenUp(step))
    ensures IsAt(Next(s, step), p, a)
  {
  }

  lemma KeepsReleases(s: State, step: Step, p: Page, a: Place)
    requires Enabled(s, step) && IsAt(s, p, a) && KindOf(step) == Releases
    ensures IsAt(Next(s, step), p, Target(s, step, p, a))
  {
    if a == Owned(GivenUp(step)) {
      KeepsGivenUp(s, step, p);
    } else {
      KeepsUntouched(s, step, p, a);
    }
  }

  lemma KeepsStacks(s: State, step: Step, p: Page, a: Place)
    requires Enabled(s, step) && IsAt(s, p, a) && KindOf(step) == Stacks
    ensures IsAt(Next(s, step), p, Target(s, step, p, a))
  {
  }

  lemma KeepsReturns(s: State, step: Step, p: Page, a: Place)
    requires Enabled(s, step) && IsAt(s, p, a) && KindOf(step) == Returns
    ensures IsAt(Next(s, step), p, Target(s, step, p, a))
  {
    SpanOfOne();
  }

  lemma KeepsHands(s: State, step: Step, p: Page, a: Place)
    requires Enabled(s, step) && IsAt(s, p, a) && KindOf(step) == Hands
    ensures IsAt(Next(s, step), p, Target(s, step, p, a))
  {
    SpanOfOne();
  }

  lemma KeepsStill(s: State, step: Step, p: Page, a: Place)
    requires Enabled(s, step) && IsAt(s, p, a) && KindOf(step) == Still
    ensures IsAt(Next(s, step), p, Target(s, step, p, a))
  {
  }

  /** Nothing vanishes: a page at some place before a step is at that place's target after it. */
  lemma StepConserves(s: State, step: Step, p: Page, a: Place)
    requires Enabled(s, step) && HugeSized(s) && RefillFits(s, step) && IsAt(s, p, a)
    ensures IsAt(Next(s, step), p, Target(s, step, p, a))
  {
    match KindOf(step) {
      case Pops => KeepsPops(s, step, p, a);
      case Drains => KeepsDrains(s, step, p, a);
      case Zones => KeepsZones(s, step, p, a);
      case Pushes => KeepsPushes(s, step, p, a);
      case Parks => KeepsParks(s, step, p, a);
      case Claims => KeepsClaims(s, step, p, a);
      case Releases => KeepsReleases(s, step, p, a);
      case Stacks => KeepsStacks(s, step, p, a);
      case Returns => KeepsReturns(s, step, p, a);
      case Hands => KeepsHands(s, step, p, a);
      case Still => KeepsStill(s, step, p, a);
    }
  }

  ghost predicate Somewhere(s: State, p: Page) {
    exists a :: IsAt(s, p, a)
  }

  /** Every page that was free at the start is at exactly one place as long as refills fit. */
  lemma {:induction false} PagesStay(trace: seq<State>, steps: seq<Step>, n: nat, p: Page)
    requires IsRun(trace, steps) && n < |trace| && p in trace[0].buddy
    requires forall i :: 0 <= i < n ==> RefillFits(trace[i], steps[i])
    ensures Somewhere(trace[n], p)
  {
    if n == 0 {
      assert IsAt(trace[0], p, InBuddy);
    } else {
      PagesStay(trace, steps, n - 1, p);
      EveryRunIsSafe(trace, steps, n - 1);
      var a :| IsAt(trace[n - 1], p, a);
      StepConserves(trace[n - 1], steps[n - 1], p, a);
    }
  }

  /** Every page comes from the zones of the initial state. */
  lemma {:induction false} PagesComeFromZones(trace: seq<State>, steps: seq<Step>, n: nat, p: Page)
    requires IsRun(trace, steps) && n < |trace| && Somewhere(trace[n], p)
    ensures p in trace[0].buddy
  {
    if n == 0 {
      var a :| IsAt(trace[0], p, a);
      InitialPlaces(trace[0], p, a);
    } else {
      EveryRunIsSafe(trace, steps, n - 1);
      SomewhereBefore(trace[n - 1], steps[n - 1], p);
      PagesComeFromZones(trace, steps, n - 1, p);
    }
  }

  lemma SomewhereBefore(s: State, step: Step, p: Page)
    requires Enabled(s, step) && HugeSized(s) && Somewhere(Next(s, step), p)
    ensures Somewhere(s, p)
  {
    var a :| IsAt(Next(s, step), p, a);
    StepTraces(s, step, p, a);
  }

  lemma InitialPlaces(s: State, p: Page, a: Place)
    requires Initial(s) && IsAt(s, p, a)
    ensures p in s.buddy
  {
    assert a.InFlight? ==> s.At(a.t) == Idle;
  }

  /** A refill that does not fit leaves one of its pages nowhere. */
  lemma RefillLoses(trace: seq<State>, steps: seq<Step>, i: nat) returns (p: Page)
    requires IsRun(trace, steps) && i < |steps| && !RefillFits(trace[i], steps[i])
    ensures p in trace[0].buddy && !Somewhere(trace[i + 1], p)
  {
    EveryRunIsSafe(trace, steps, i);
    var s, t := trace[i], steps[i].t;
    RefillKeepsAllPagesIffTheyFit(s, t);
    p :| p in s.At(t).buf && forall a :: !IsAt(Next(s, FillCache(t)), p, a);
    var k :| 0 <= k < |s.At(t).buf| && s.At(t).buf[k] == p;
    SpanOfOne();
    assert IsAt(s, p, InFlight(t, k));
    PagesComeFromZones(trace, steps, i, p);
  }

  /** Conservation: in a run every initially free page is somewhere at all times exactly when every
      refill of the cache fits. */
  lemma PagesConservedIffRefillsFit(trace: seq<State>, steps: seq<Step>)
    requires IsRun(trace, steps)
    ensures (forall n, p :: 0 <= n < |trace| && p in trace[0].buddy ==> Somewhere(trace[n], p))
            <==> forall i :: 0 <= i < |steps| ==> RefillFits(trace[i], steps[i])
  {
    if forall i :: 0 <= i < |steps| ==> RefillFits(trace[i], steps[i]) {
      forall n, p | 0 <= n < |trace| && p in trace[0].buddy
        ensures Somewhere(trace[n], p)
      {
        PagesStay(trace, steps, n, p);
      }
    } else {
      var i :| 0 <= i < |steps| && !RefillFits(trace[i], steps[i]);
      var p := RefillLoses(trace, steps, i);
    }
  }

  // ---- Requests get what they asked for ----

  datatype Want = NoWant | One | Many(num: nat) | Batch(max: nat) | Huge

  function Wanted(step: Step): Want {
    match step
    case StartAlloc(_, _) => One
    case StartPrezeroedOnly(_) => One
    case StartMulti(_, num, _) => Many(num)
    case StartBatch(_, max) => Batch(max)
    case PopHuge(_) => Huge
    case _ => NoWant
  }

  predicate Satisfies(blocks: seq<Block>, w: Want) {
    match w
    case One => |blocks| == 1 && blocks[0].num == 1
    case Many(num) => |blocks| == 1 && blocks[0].num == num && blocks[0].base % Span(num) == 0
    case Batch(max) => |blocks| <= max && forall i :: 0 <= i < |blocks| ==> blocks[i].num == 1
    case Huge => |blocks| == 1 && blocks[0].num == HUGE_PAGES
    case NoWant => false
  }

  /** A thread on its way to satisfy `w`. */
  predicate Serves(pc: Pc, w: Want) {
    match pc
    case TryPrezeroed(_) => w == One
    case PrezeroedGot(_) => w == One
    case TryCache(_) => w == One
    case RefillZones(_) => w == One
    case RefillCache(_, _) => w == One
    case RetryCache(_) => w == One
    case CacheGot(_, _) => w == One
    case BatchCache(max) => w == Batch(max)
    case BatchZones(got, max) => w == Batch(max) && |got| <= max
    case MultiZones(num, _) => w == Many(num)
    case MultiGot(b, _) => w == Many(b.num) && b.base % Span(b.num) == 0
    case Returning(blocks, _) => Satisfies(blocks, w)
    case _ => false
  }

  ghost predicate GoesOnServing(s: State, step: Step, w: Want)
    requires Enabled(s, step)
  {
    Serves(s.At(step.t), w) ==> Serves(Next(s, step).At(step.t), w) || Next(s, step).At(step.t).Idle?
  }

  lemma StartServes(s: State, step: Step)
    requires Enabled(s, step) && Wanted(step) != NoWant
    ensures Serves(Next(s, step).At(step.t), Wanted(step))
  {
  }

  lemma ServingPops(s: State, step: Step, w: Want)
    requires Enabled(s, step) && KindOf(step) == Pops
    ensures GoesOnServing(s, step, w)
  {
  }

  lemma ServingDrains(s: State, step: Step, w: Want)
    requires Enabled(s, step) && KindOf(step) == Drains
    ensures GoesOnServing(s, step, w)
  {
  }

  lemma ServingZones(s: State, step: Step, w: Want)
    requires Enabled(s, step) && KindOf(step) == Zones
    ensures GoesOnServing(s, step, w)
  {
  }

  lemma ServingPushes(s: State, step: Step, w: Want)
    requires Enabled(s, step) && KindOf(step) == Pushes
    ensures GoesOnServing(s, step, w)
  {
  }

  lemma ServingParks(s: State, step: Step, w: Want)
    requires Enabled(s, step) && KindOf(step) == Parks
    ensures GoesOnServing(s, step, w)
  {
  }

  lemma ServingClaims(s: State, step: Step, w: Want)
    requires Enabled(s, step) && KindOf(step) == Claims
    ensures GoesOnServing(s, step, w)
  {
  }

  lemma ServingReleases(s: State, step: Step, w: Want)
    requires Enabled(s, step) && KindOf(step) == Releases
    ensures GoesOnServing(s, step, w)
  {
  }

  lemma ServingStacks(s: State, step: Step, w: Want)
    requires Enabled(s, step) && KindOf(step) == Stacks
    ensures GoesOnServing(s, step, w)
  {
  }

  lemma ServingReturns(s: State, step: Step, w: Want)
    requires Enabled(s, step) && KindOf(step) == Returns
    ensures GoesOnServing(s, step, w)
  {
  }

  lemma ServingHands(s: State, step: Step, w: Want)
    requires Enabled(s, step) && KindOf(step) == Hands
    ensures GoesOnServing(s, step, w)
  {
  }

  lemma ServingStill(s: State, step: Step, w: Want)
    requires Enabled(s, step) && KindOf(step) == Still
    ensures GoesOnServing(s, step, w)
  {
  }

  lemma StepServes(s: State, step: Step, w: Want)
    requires Enabled(s, step)
    ensures GoesOnServing(s, step, w)
  {
    match KindOf(step) {
      case Pops => ServingPops(s, step, w);
      case Drains => ServingDrains(s, step, w);
      case Zones => ServingZones(s, step, w);
      case Pushes => ServingPushes(s, step, w);
      case Parks => ServingParks(s, step, w);
      case Claims => ServingClaims(s, step, w);
      case Releases => ServingReleases(s, step, w);
      case Stacks => ServingStacks(s, step, w);
      case Returns => ServingReturns(s, step, w);
      case Hands => ServingHands(s, step, w);
      case Still => ServingStill(s, step, w);
    }
  }

  lemma ServesOrIdle(s: State, step: Step, t: Tid, w: Want)
    requires Enabled(s, step) && (Serves(s.At(t), w) || s.At(t).Idle?) && (step.t == t ==> !Starts(step))
    ensures Serves(Next(s, step).At(t), w) || Next(s, step).At(t).Idle?
  {
    if step.t != t {
      OtherThreadsStay(s, step);
    } else if s.At(t).Idle? {
      IdleStaysIdle(s, step);
    } else {
      StepServes(s, step, w);
    }
  }

  lemma {:induction false} ServesSinceStart(trace: seq<State>, steps: seq<Step>, m: nat, n: nat, t: Tid)
    requires IsRun(trace, steps) && m < n < |trace| && steps[m].t == t && Wanted(steps[m]) != NoWant
    requires forall k :: m < k < n && steps[k].t == t ==> !Starts(steps[k])
    ensures Serves(trace[n].At(t), Wanted(steps[m])) || trace[n].At(t).Idle?
  {
    if n - 1 == m {
      StartServes(trace[m], steps[m]);
    } else {
      ServesSinceStart(trace, steps, m, n - 1, t);
      ServesOrIdle(trace[n - 1], steps[n - 1], t, Wanted(steps[m]));
    }
  }

  /** What a thread delivers is what it was last asked for: one page, one aligned block of the
      requested size, at most the requested number of single pages, or one 2 MB block; and the
      client of that thread then owns exactly these blocks in addition. */
  lemma DeliveredAsAsked(trace: seq<State>, steps: seq<Step>, m: nat, n: nat)
    requires IsRun(trace, steps) && m < n < |steps| && steps[n].Deliver? && steps[m].t == steps[n].t
    requires Wanted(steps[m]) != NoWant
    requires forall k :: m < k < n && steps[k].t == steps[n].t ==> !Starts(steps[k])
    ensures Satisfies(trace[n].At(steps[n].t).blocks, Wanted(steps[m]))
    ensures forall c :: c in trace[n + 1].owned <==>
              c in trace[n].owned || (c.tid == steps[n].t && c.block in trace[n].At(steps[n].t).blocks)
  {
    ServesSinceStart(trace, steps, m, n, steps[n].t);
    DeliverOwns(trace[n], steps[n].t);
  }

  lemma DeliverOwns(s: State, t: Tid)
    requires Enabled(s, Deliver(t))
    ensures forall c :: c in Next(s, Deliver(t)).owned <==> c in s.owned || (c.tid == t && c.block in s.At(t).blocks)
  {
    var bs := s.At(t).blocks;
    forall c: Claim | c.tid == t && c.block in bs
      ensures c in Next(s, Deliver(t)).owned
    {
      var i :| 0 <= i < |bs| && bs[i] == c.block;
      assert c == Claim(t, bs[i]);
    }
  }
}
