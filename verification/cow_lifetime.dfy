/** Lifetime of reference-counted pages over every interleaving of allocate, share and unshare.
    The sentinel load and the read-modify-write of one operation are separate steps. */
module CowLifetime {
  import opened Common
  import opened RefCount

  type Page = nat
  type Ref = nat
  type Tid = nat

  /** The most references a 16-bit counter can tell from the kernel-image mark. */
  const MAX_REFS: nat := 65534

  datatype Pc =
    | Idle
    | Sharing(page: Page, from: Ref, to: Ref)   // page_ref_inc after its load
    | Dropping(page: Page, ref: Ref)            // page_ref_dec after its load

  datatype State = State(
    count: map<Page, nat>,          // the stored 16-bit counters
    image: set<Page>,               // kernel-image pages
    live: map<Page, set<Ref>>,      // references that exist
    pc: map<Tid, Pc>,
    born: map<Page, nat>,           // how often the page was allocated
    reported: map<Page, nat>,       // how often a decrement said "free me"
    limit: nat                      // references per page the address spaces make at most
  ) {
    function Live(p: Page): set<Ref> { if p in live then live[p] else {} }
    function Count(p: Page): nat { if p in count then count[p] else 0 }
    function Born(p: Page): nat { if p in born then born[p] else 0 }
    function Reported(p: Page): nat { if p in reported then reported[p] else 0 }
  }

  /** Load and sentinel test; `Finish` is the read-modify-write.  Page-table counters have no
      sentinel and do both in one step. */
  datatype Step =
    | Allocate(t: Tid, page: Page, ref: Ref)
    | Share(t: Tid, page: Page, from: Ref, to: Ref)
    | FinishShare(t: Tid)
    | Drop(t: Tid, page: Page, ref: Ref)
    | FinishDrop(t: Tid)
    | ShareTable(t: Tid, page: Page, from: Ref, to: Ref)
    | DropTable(t: Tid, page: Page, ref: Ref)

  /** No thread is working with this reference. */
  ghost predicate Unused(s: State, page: Page, r: Ref) {
    forall t :: t in s.pc ==> !Uses(s.pc[t], page, r)
  }

  predicate Uses(pc: Pc, page: Page, r: Ref) {
    match pc
    case Idle => false
    case Sharing(p, from, to) => p == page && (from == r || to == r)
    case Dropping(p, ref) => p == page && ref == r
  }

  ghost predicate NotDropping(s: State, page: Page, r: Ref) {
    forall t :: t in s.pc ==> s.pc[t] != Dropping(page, r)
  }

  /** References being created by threads that have not finished sharing. */
  ghost function Reserved(s: State, page: Page): set<Tid> {
    set t | t in s.pc && s.pc[t].Sharing? && s.pc[t].page == page
  }

  ghost predicate MayShare(s: State, page: Page, from: Ref, to: Ref) {
    && from in s.Live(page) && NotDropping(s, page, from)
    && to !in s.Live(page) && Unused(s, page, to)
    && (page !in s.image ==> |s.Live(page)| + |Reserved(s, page)| < s.limit)
  }

  ghost predicate Enabled(s: State, step: Step) {
    && step.t in s.pc
    && match step
       case Allocate(t, p, r) => s.pc[t].Idle? && s.Live(p) == {} && p !in s.image
       case Share(t, p, from, to) => s.pc[t].Idle? && MayShare(s, p, from, to)
       case FinishShare(t) => s.pc[t].Sharing?
       case Drop(t, p, r) => s.pc[t].Idle? && r in s.Live(p) && Unused(s, p, r)
       case FinishDrop(t) => s.pc[t].Dropping?
       case ShareTable(t, p, from, to) => s.pc[t].Idle? && p !in s.image && MayShare(s, p, from, to)
       case DropTable(t, p, r) => s.pc[t].Idle? && p !in s.image && r in s.Live(p) && Unused(s, p, r)
  }

  function Shared(s: State, p: Page, to: Ref): State {
    var s' := s.(live := s.live[p := s.Live(p) + {to}]);
    if p < MAX_PAGES then s'.(count := s.count[p := Up(s.Count(p))]) else s'
  }

  /** What the decrement returns. */
  function SaysFree(s: State, p: Page): bool {
    p >= MAX_PAGES || s.Count(p) == 1
  }

  function Dropped(s: State, p: Page, r: Ref): State {
    var s' := s.(live := s.live[p := s.Live(p) - {r}],
                 reported := if SaysFree(s, p) then s.reported[p := s.Reported(p) + 1] else s.reported);
    if p < MAX_PAGES then s'.(count := s.count[p := Down(s.Count(p))]) else s'
  }

  /** A counter that reads as the sentinel ends the operation at the load. */
  predicate Sentinel(s: State, p: Page) {
    p < MAX_PAGES && s.Count(p) == KERNEL_IMAGE
  }

  ghost function Next(s: State, step: Step): State
    requires Enabled(s, step)
  {
    match step
    case Allocate(_, p, r) =>
      s.(live := s.live[p := {r}], born := s.born[p := s.Born(p) + 1],
         count := if p < MAX_PAGES then s.count[p := 1] else s.count)
    case Share(t, p, from, to) =>
      if Sentinel(s, p) then s.(live := s.live[p := s.Live(p) + {to}])
      else s.(pc := s.pc[t := Sharing(p, from, to)])
    case FinishShare(t) => Shared(s, s.pc[t].page, s.pc[t].to).(pc := s.pc[t := Idle])
    case Drop(t, p, r) =>
      if Sentinel(s, p) then s.(live := s.live[p := s.Live(p) - {r}])
      else s.(pc := s.pc[t := Dropping(p, r)])
    case FinishDrop(t) => Dropped(s, s.pc[t].page, s.pc[t].ref).(pc := s.pc[t := Idle])
    case ShareTable(_, p, _, to) => Shared(s, p, to)
    case DropTable(_, p, r) => Dropped(s, p, r)
  }

  ghost predicate Initial(s: State) {
    && (forall p: Page :: p in s.image ==> p < MAX_PAGES && s.Count(p) == KERNEL_IMAGE)
    && (forall p: Page :: p !in s.image ==> s.Count(p) == 0 && s.Live(p) == {})
    && (forall t :: t in s.pc ==> s.pc[t].Idle?)
    && s.born == map[] && s.reported == map[]
  }

  ghost predicate IsRun(trace: seq<State>, steps: seq<Step>) {
    && |trace| == |steps| + 1
    && Initial(trace[0])
    && forall i :: 0 <= i < |steps| ==> Enabled(trace[i], steps[i]) && trace[i + 1] == Next(trace[i], steps[i])
  }

  // ---- The invariant ----

  /** The stored count is the number of live references, or the untouched sentinel. */
  ghost predicate CountsOk(s: State) {
    forall p: Page :: p < MAX_PAGES ==> s.Count(p) == if p in s.image then KERNEL_IMAGE else |s.Live(p)|
  }

  ghost predicate BoundOk(s: State) {
    forall p: Page :: p !in s.image ==> |s.Live(p)| + |Reserved(s, p)| <= MAX_REFS
  }

  /** Every allocation is matched by one report, except the current lifetime's. */
  ghost predicate ReportsOk(s: State) {
    forall p: Page :: p < MAX_PAGES && p !in s.image ==>
      s.Born(p) == s.Reported(p) + if s.Live(p) == {} then 0 else 1
  }

  ghost predicate ImageOk(s: State) {
    forall p: Page :: p in s.image ==> p < MAX_PAGES && s.Reported(p) == 0
  }

  ghost predicate ThreadsOk(s: State) {
    && (forall t :: t in s.pc ==> ThreadOk(s, s.pc[t]))
    && (forall t, u :: t in s.pc && u in s.pc && t != u ==> Compatible(s.pc[t], s.pc[u]))
  }

  predicate ThreadOk(s: State, pc: Pc) {
    match pc
    case Idle => true
    case Sharing(p, from, to) => p !in s.image && from in s.Live(p) && to !in s.Live(p)
    case Dropping(p, r) => p !in s.image && r in s.Live(p)
  }

  predicate Compatible(a: Pc, b: Pc) {
    match (a, b)
    case (Dropping(p, r), Dropping(q, w)) => p == q ==> r != w
    case (Dropping(p, r), Sharing(q, from, to)) => p == q ==> r != from && r != to
    case (Sharing(q, from, to), Dropping(p, r)) => p == q ==> r != from && r != to
    case (Sharing(p, _, to), Sharing(q, _, to')) => p == q ==> to != to'
    case _ => true
  }

  ghost predicate Inv(s: State) {
    s.limit <= MAX_REFS && CountsOk(s) && BoundOk(s) && ReportsOk(s) && ImageOk(s) && ThreadsOk(s)
  }

  lemma NewRefKeepsThread(s: State, s': State, p: Page, to: Ref, pc: Pc)
    requires ThreadOk(s, pc) && s'.image == s.image && s'.live == s.live[p := s.Live(p) + {to}]
    requires pc.Sharing? && pc.page == p ==> pc.to != to
    ensures ThreadOk(s', pc)
  {
  }

  lemma LostRefKeepsThread(s: State, s': State, p: Page, r: Ref, pc: Pc)
    requires ThreadOk(s, pc) && s'.image == s.image && s'.live == s.live[p := s.Live(p) - {r}] && !Uses(pc, p, r)
    ensures ThreadOk(s', pc)
  {
  }

  lemma SharingKeepsOthers(s: State, step: Step, u: Tid)
    requires ThreadsOk(s) && Enabled(s, step) && u in s.pc && u != step.t
    requires step.Share? || step.FinishShare? || step.ShareTable?
    ensures ThreadOk(Next(s, step), s.pc[u])
  {
    var pc, mine, s' := s.pc[u], s.pc[step.t], Next(s, step);
    assert Compatible(mine, pc);
    match step {
      case Share(_, p, _, to) => if Sentinel(s, p) { NewRefKeepsThread(s, s', p, to, pc); }
      case FinishShare(_) => NewRefKeepsThread(s, s', mine.page, mine.to, pc);
      case ShareTable(_, p, _, to) => NewRefKeepsThread(s, s', p, to, pc);
    }
  }

  lemma DroppingKeepsOthers(s: State, step: Step, u: Tid)
    requires ThreadsOk(s) && Enabled(s, step) && u in s.pc && u != step.t
    requires step.Drop? || step.FinishDrop? || step.DropTable?
    ensures ThreadOk(Next(s, step), s.pc[u])
  {
    var pc, mine, s' := s.pc[u], s.pc[step.t], Next(s, step);
    assert Compatible(mine, pc);
    match step {
      case Drop(_, p, r) => if Sentinel(s, p) { LostRefKeepsThread(s, s', p, r, pc); }
      case FinishDrop(_) => LostRefKeepsThread(s, s', mine.page, mine.ref, pc);
      case DropTable(_, p, r) => LostRefKeepsThread(s, s', p, r, pc);
    }
  }

  /** A thread other than the one that steps keeps its references. */
  lemma OthersStayOk(s: State, step: Step, u: Tid)
    requires ThreadsOk(s) && Enabled(s, step) && u in s.pc && u != step.t
    ensures Next(s, step).pc[u] == s.pc[u] && ThreadOk(Next(s, step), s.pc[u])
  {
    if step.Share? || step.FinishShare? || step.ShareTable? {
      SharingKeepsOthers(s, step, u);
    } else if !step.Allocate? {
      DroppingKeepsOthers(s, step, u);
    } else {
      assert ThreadOk(s, s.pc[u]);
    }
  }

  lemma OthersStayCompatible(s: State, step: Step, u: Tid)
    requires ThreadsOk(s) && Enabled(s, step) && u in s.pc && u != step.t
    ensures Compatible(Next(s, step).pc[step.t], s.pc[u]) && Compatible(s.pc[u], Next(s, step).pc[step.t])
  {
    assert Compatible(s.pc[step.t], s.pc[u]) && Compatible(s.pc[u], s.pc[step.t]) && ThreadOk(s, s.pc[u]);
    match step {
      case Share(_, p, from, to) =>
        assert !Uses(s.pc[u], p, to) && s.pc[u] != Dropping(p, from);
      case Drop(_, p, r) => assert !Uses(s.pc[u], p, r);
      case _ =>
    }
  }

  /** At most 65534 references never look like the sentinel. */
  lemma ImageIsSentinel(s: State, p: Page)
    requires CountsOk(s) && BoundOk(s) && ImageOk(s)
    ensures Sentinel(s, p) <==> p in s.image
  {
  }

  lemma StepKeepsThreads(s: State, step: Step)
    requires CountsOk(s) && BoundOk(s) && ImageOk(s) && ThreadsOk(s) && Enabled(s, step)
    ensures ThreadsOk(Next(s, step))
  {
    var s', me := Next(s, step), step.t;
    forall u | u in s'.pc ensures ThreadOk(s', s'.pc[u]) {
      if u != me {
        OthersStayOk(s, step, u);
      } else if step.Share? || step.Drop? {
        ImageIsSentinel(s, step.page);
      }
    }
    forall t, u | t in s'.pc && u in s'.pc && t != u ensures Compatible(s'.pc[t], s'.pc[u]) {
      if t == me {
        OthersStayOk(s, step, u);
        OthersStayCompatible(s, step, u);
      } else if u == me {
        OthersStayOk(s, step, t);
        OthersStayCompatible(s, step, t);
      } else {
        OthersStayOk(s, step, t);
        OthersStayOk(s, step, u);
      }
    }
  }

  lemma ReservedAfter(s: State, step: Step, p: Page)
    requires Enabled(s, step)
    ensures var s' := Next(s, step);
            match step
            case Share(t, q, _, _) =>
              Reserved(s', p) == if q == p && !Sentinel(s, q) then Reserved(s, p) + {t} else Reserved(s, p)
            case FinishShare(t) => Reserved(s', p) == Reserved(s, p) - {t}
            case _ => Reserved(s', p) == Reserved(s, p)
  {
    var s' := Next(s, step);
    match step {
      case Share(t, q, from, to) =>
        if !Sentinel(s, q) {
          ReservedSet(s, s', t, Sharing(q, from, to), p);
        }
      case FinishShare(t) => ReservedSet(s, s', t, Idle, p);
      case Drop(t, q, r) =>
        if !Sentinel(s, q) {
          ReservedSet(s, s', t, Dropping(q, r), p);
        }
      case FinishDrop(t) => ReservedSet(s, s', t, Idle, p);
      case _ => assert s'.pc == s.pc;
    }
  }

  lemma ReservedSet(s: State, s': State, t: Tid, x: Pc, p: Page)
    requires s'.pc == s.pc[t := x]
    ensures Reserved(s', p) == if x.Sharing? && x.page == p then Reserved(s, p) + {t} else Reserved(s, p) - {t}
  {
  }

  /** How the references of one page change. */
  ghost predicate LiveChange(s: State, s': State, step: Step, p: Page)
    requires Enabled(s, step)
  {
    match step
    case Allocate(_, q, r) => s'.Live(p) == if q == p then {r} else s.Live(p)
    case Share(_, q, _, to) => s'.Live(p) == if q == p && Sentinel(s, q) then s.Live(p) + {to} else s.Live(p)
    case FinishShare(t) => s'.Live(p) == if s.pc[t].page == p then s.Live(p) + {s.pc[t].to} else s.Live(p)
    case Drop(_, q, r) => s'.Live(p) == if q == p && Sentinel(s, q) then s.Live(p) - {r} else s.Live(p)
    case FinishDrop(t) => s'.Live(p) == if s.pc[t].page == p then s.Live(p) - {s.pc[t].ref} else s.Live(p)
    case ShareTable(_, q, _, to) => s'.Live(p) == if q == p then s.Live(p) + {to} else s.Live(p)
    case DropTable(_, q, r) => s'.Live(p) == if q == p then s.Live(p) - {r} else s.Live(p)
  }

  lemma LiveAfter(s: State, step: Step, p: Page)
    requires Enabled(s, step)
    ensures LiveChange(s, Next(s, step), step, p)
  {
  }

  lemma BoundAfter(s: State, step: Step, p: Page)
    requires s.limit <= MAX_REFS && CountsOk(s) && BoundOk(s) && ImageOk(s) && ThreadsOk(s) && Enabled(s, step)
    requires p !in s.image
    ensures |Next(s, step).Live(p)| + |Reserved(Next(s, step), p)| <= MAX_REFS
  {
    var l, r, l', r' := s.Live(p), Reserved(s, p), Next(s, step).Live(p), Reserved(Next(s, step), p);
    LiveAfter(s, step, p);
    ReservedAfter(s, step, p);
    ImageIsSentinel(s, p);
    assert |l| + |r| <= MAX_REFS;
    if step.Allocate? && step.page == p {
      NoSharingOfDeadPage(s, p);
      assert l' == {step.ref};
    } else if step.Share? && step.page == p {
      assert l' == l && r' == r + {step.t};
    } else if step.FinishShare? && s.pc[step.t].page == p {
      assert l' == l + {s.pc[step.t].to} && step.t in r && r' == r - {step.t};
    } else if step.ShareTable? && step.page == p {
      assert l' == l + {step.to} && r' == r;
    } else {
      assert l' <= l && r' <= r;
      SubsetSize(l', l);
      SubsetSize(r', r);
    }
  }

  lemma StepKeepsBound(s: State, step: Step)
    requires s.limit <= MAX_REFS && CountsOk(s) && BoundOk(s) && ImageOk(s) && ThreadsOk(s) && Enabled(s, step)
    ensures BoundOk(Next(s, step))
  {
    forall p: Page | p !in s.image ensures |Next(s, step).Live(p)| + |Reserved(Next(s, step), p)| <= MAX_REFS {
      BoundAfter(s, step, p);
    }
  }

  lemma NoSharingOfDeadPage(s: State, p: Page)
    requires ThreadsOk(s) && s.Live(p) == {}
    ensures Reserved(s, p) == {}
  {
  }

  lemma SharedCount(s: State, p: Page, to: Ref)
    requires CountsOk(s) && p !in s.image && to !in s.Live(p) && |s.Live(p)| < MAX_REFS
    ensures CountsOk(Shared(s, p, to))
  {
  }

  lemma DroppedCount(s: State, p: Page, r: Ref)
    requires CountsOk(s) && BoundOk(s) && p !in s.image && r in s.Live(p)
    ensures CountsOk(Dropped(s, p, r))
    ensures p < MAX_PAGES ==> (SaysFree(s, p) <==> s.Live(p) - {r} == {})
    ensures p < MAX_PAGES ==> s.Count(p) > 0
  {
    assert s.Live(p) == (s.Live(p) - {r}) + {r};
    assert |s.Live(p) - {r}| == |s.Live(p)| - 1;
    if |s.Live(p)| == 1 { assert s.Live(p) - {r} == {}; }
  }

  lemma SharedReports(s: State, p: Page, to: Ref)
    requires ReportsOk(s) && ImageOk(s) && s.Live(p) != {}
    ensures ReportsOk(Shared(s, p, to)) && ImageOk(Shared(s, p, to))
  {
  }

  lemma DroppedReports(s: State, p: Page, r: Ref)
    requires ReportsOk(s) && ImageOk(s) && p !in s.image && r in s.Live(p)
    requires p < MAX_PAGES ==> (SaysFree(s, p) <==> s.Live(p) - {r} == {})
    ensures ReportsOk(Dropped(s, p, r)) && ImageOk(Dropped(s, p, r))
  {
  }

  lemma StepKeepsCounts(s: State, step: Step)
    requires Inv(s) && Enabled(s, step)
    ensures CountsOk(Next(s, step)) && ReportsOk(Next(s, step)) && ImageOk(Next(s, step))
  {
    match step {
      case Allocate(_, p, r) => AllocateCounts(s, step);
      case Share(_, p, _, _) => ImageIsSentinel(s, p);
      case FinishShare(t) => FinishShareCounts(s, step);
      case Drop(_, p, _) => ImageIsSentinel(s, p);
      case FinishDrop(t) => FinishDropCounts(s, step);
      case ShareTable(_, _, _, _) => TableCounts(s, step);
      case DropTable(_, _, _) => TableCounts(s, step);
    }
  }

  lemma TableCounts(s: State, step: Step)
    requires Inv(s) && Enabled(s, step) && (step.ShareTable? || step.DropTable?)
    ensures CountsOk(Next(s, step)) && ReportsOk(Next(s, step)) && ImageOk(Next(s, step))
  {
    if step.ShareTable? {
      SharedCount(s, step.page, step.to);
      SharedReports(s, step.page, step.to);
    } else {
      DroppedCount(s, step.page, step.ref);
      DroppedReports(s, step.page, step.ref);
    }
  }

  lemma FinishShareCounts(s: State, step: Step)
    requires Inv(s) && Enabled(s, step) && step.FinishShare?
    ensures CountsOk(Next(s, step)) && ReportsOk(Next(s, step)) && ImageOk(Next(s, step))
  {
    var mine := s.pc[step.t];
    assert ThreadOk(s, mine) && step.t in Reserved(s, mine.page);
    SharedCount(s, mine.page, mine.to);
    SharedReports(s, mine.page, mine.to);
  }

  lemma FinishDropCounts(s: State, step: Step)
    requires Inv(s) && Enabled(s, step) && step.FinishDrop?
    ensures CountsOk(Next(s, step)) && ReportsOk(Next(s, step)) && ImageOk(Next(s, step))
  {
    var mine := s.pc[step.t];
    assert ThreadOk(s, mine);
    DroppedCount(s, mine.page, mine.ref);
    DroppedReports(s, mine.page, mine.ref);
  }

  lemma AllocateCounts(s: State, step: Step)
    requires Inv(s) && Enabled(s, step) && step.Allocate?
    ensures CountsOk(Next(s, step)) && ReportsOk(Next(s, step)) && ImageOk(Next(s, step))
  {
  }

  lemma {:induction false} EveryRunKeepsInv(trace: seq<State>, steps: seq<Step>, n: nat)
    requires IsRun(trace, steps) && n < |trace| && trace[0].limit <= MAX_REFS
    ensures Inv(trace[n]) && trace[n].image == trace[0].image
  {
    if n == 0 {
      assert forall p :: Reserved(trace[0], p) == {};
    } else {
      EveryRunKeepsInv(trace, steps, n - 1);
      StepKeepsThreads(trace[n - 1], steps[n - 1]);
      StepKeepsBound(trace[n - 1], steps[n - 1]);
      StepKeepsCounts(trace[n - 1], steps[n - 1]);
    }
  }

  /** In every run the stored count of a tracked page is its number of live references, and its
      lifetimes and "free me" reports match one to one. */
  lemma CountIsLiveReferences(trace: seq<State>, steps: seq<Step>, n: nat, p: Page)
    requires IsRun(trace, steps) && n < |trace| && p < MAX_PAGES && p !in trace[0].image && trace[0].limit <= MAX_REFS
    ensures trace[n].Count(p) == |trace[n].Live(p)| <= MAX_REFS
    ensures trace[n].Born(p) == trace[n].Reported(p) + if trace[n].Live(p) == {} then 0 else 1
  {
    EveryRunKeepsInv(trace, steps, n);
  }

  /** A decrement says "free me" exactly when it removes the last reference, and never underflows. */
  lemma LastDropReports(trace: seq<State>, steps: seq<Step>, n: nat, p: Page)
    requires IsRun(trace, steps) && n < |steps| && p < MAX_PAGES && p !in trace[0].image && trace[0].limit <= MAX_REFS
    requires (steps[n].FinishDrop? && trace[n].pc[steps[n].t].page == p) || (steps[n].DropTable? && steps[n].page == p)
    ensures SaysFree(trace[n], p) <==> trace[n + 1].Live(p) == {}
    ensures trace[n].Count(p) > 0
  {
    EveryRunKeepsInv(trace, steps, n);
    var s, step := trace[n], steps[n];
    if step.FinishDrop? {
      DroppedCount(s, p, s.pc[step.t].ref);
    } else {
      DroppedCount(s, p, step.ref);
    }
  }

  /** A kernel-image page keeps its sentinel for ever and is never reported free. */
  lemma SentinelNeverFreed(trace: seq<State>, steps: seq<Step>, n: nat, p: Page)
    requires IsRun(trace, steps) && n < |trace| && p in trace[0].image && trace[0].limit <= MAX_REFS
    ensures trace[n].Count(p) == KERNEL_IMAGE && trace[n].Reported(p) == 0
  {
    EveryRunKeepsInv(trace, steps, n);
  }

  // ---- Pages beyond the tracked range ----

  ghost predicate Decrements(s: State, step: Step, p: Page) {
    || (step.FinishDrop? && step.t in s.pc && s.pc[step.t].Dropping? && s.pc[step.t].page == p)
    || (step.DropTable? && step.page == p)
  }

  /** Step `n` of a run is a decrement of an ordinary page that reports "free me" wrongly: with
      references left, or not although it removed the last one. */
  ghost predicate Misreports(trace: seq<State>, steps: seq<Step>, n: nat, p: Page) {
    && IsRun(trace, steps) && trace[0].limit <= MAX_REFS
    && n < |steps| && p !in trace[0].image && Decrements(trace[n], steps[n], p)
    && (SaysFree(trace[n], p) <==> trace[n + 1].Live(p) != {})
  }

  /** One thread and one page. */
  function Snapshot(p: Page, live: set<Ref>, pc: Pc, born: map<Page, nat>, reported: map<Page, nat>): State {
    State(map[], {}, map[p := live], map[0 := pc], born, reported, MAX_REFS)
  }

  lemma RunGoesOn(trace: seq<State>, steps: seq<Step>, step: Step, next: State)
    requires IsRun(trace, steps) && Enabled(trace[|steps|], step) && Next(trace[|steps|], step) == next
    ensures IsRun(trace + [next], steps + [step])
  {
    var trace', steps' := trace + [next], steps + [step];
    forall i | 0 <= i < |steps'|
      ensures Enabled(trace'[i], steps'[i]) && trace'[i + 1] == Next(trace'[i], steps'[i])
    {
      if i < |steps| {
        assert trace'[i] == trace[i] && trace'[i + 1] == trace[i + 1] && steps'[i] == steps[i];
      }
    }
  }

  lemma AllocateUntracked(p: Page)
    requires p >= MAX_PAGES
    ensures var s := State(map[], {}, map[], map[0 := Idle], map[], map[], MAX_REFS);
            Enabled(s, Allocate(0, p, 1)) && Next(s, Allocate(0, p, 1)) == Snapshot(p, {1}, Idle, map[p := 1], map[])
  {
  }

  lemma ShareUntracked(p: Page, born: map<Page, nat>)
    requires p >= MAX_PAGES
    ensures var s, m := Snapshot(p, {1}, Idle, born, map[]), Snapshot(p, {1}, Sharing(p, 1, 2), born, map[]);
            && Enabled(s, Share(0, p, 1, 2)) && Next(s, Share(0, p, 1, 2)) == m
            && Enabled(m, FinishShare(0)) && Next(m, FinishShare(0)) == Snapshot(p, {1, 2}, Idle, born, map[])
  {
    assert Reserved(Snapshot(p, {1}, Idle, born, map[]), p) == {};
    assert {1} + {2} == {1, 2};
  }

  lemma DropUntracked(p: Page, live: set<Ref>, r: Ref, born: map<Page, nat>, reported: map<Page, nat>)
    requires p >= MAX_PAGES && r in live
    ensures var s, m := Snapshot(p, live, Idle, born, reported), Snapshot(p, live, Dropping(p, r), born, reported);
            && Enabled(s, Drop(0, p, r)) && Next(s, Drop(0, p, r)) == m
            && Enabled(m, FinishDrop(0))
            && Next(m, FinishDrop(0)) == Snapshot(p, live - {r}, Idle, born, reported[p := m.Reported(p) + 1])
  {
  }

  /** One reference allocated and shared. */
  lemma SharedUntracked(p: Page) returns (trace: seq<State>, steps: seq<Step>)
    requires p >= MAX_PAGES
    ensures IsRun(trace, steps) && |steps| == 3 && trace[0].image == {} && trace[0].limit == MAX_REFS
    ensures trace[3] == Snapshot(p, {1, 2}, Idle, map[p := 1], map[])
  {
    var once := map[p := 1];
    trace, steps := [State(map[], {}, map[], map[0 := Idle], map[], map[], MAX_REFS)], [];
    AllocateUntracked(p);
    ShareUntracked(p, once);
    RunGoesOn(trace, steps, Allocate(0, p, 1), Snapshot(p, {1}, Idle, once, map[]));
    trace, steps := trace + [Snapshot(p, {1}, Idle, once, map[])], steps + [Allocate(0, p, 1)];
    RunGoesOn(trace, steps, Share(0, p, 1, 2), Snapshot(p, {1}, Sharing(p, 1, 2), once, map[]));
    trace, steps := trace + [Snapshot(p, {1}, Sharing(p, 1, 2), once, map[])], steps + [Share(0, p, 1, 2)];
    RunGoesOn(trace, steps, FinishShare(0), Snapshot(p, {1, 2}, Idle, once, map[]));
    trace, steps := trace + [Snapshot(p, {1, 2}, Idle, once, map[])], steps + [FinishShare(0)];
  }

  /** Drop one reference: the decrement says "free me" whatever is left. */
  lemma DroppedUntracked(trace0: seq<State>, steps0: seq<Step>, p: Page, live: set<Ref>, r: Ref, reported: map<Page, nat>)
    returns (trace: seq<State>, steps: seq<Step>)
    requires p >= MAX_PAGES && r in live && IsRun(trace0, steps0)
    requires trace0[|steps0|] == Snapshot(p, live, Idle, map[p := 1], reported)
    ensures IsRun(trace, steps) && |steps| == |steps0| + 2 && trace[0] == trace0[0]
    ensures trace[|steps0| + 1] == Snapshot(p, live, Dropping(p, r), map[p := 1], reported)
    ensures steps[|steps0| + 1] == FinishDrop(0)
    ensures trace[|steps|] == Snapshot(p, live - {r}, Idle, map[p := 1], reported[p := trace0[|steps0|].Reported(p) + 1])
  {
    DropUntracked(p, live, r, map[p := 1], reported);
    var m := Snapshot(p, live, Dropping(p, r), map[p := 1], reported);
    RunGoesOn(trace0, steps0, Drop(0, p, r), m);
    trace, steps := trace0 + [m], steps0 + [Drop(0, p, r)];
    var end := Next(m, FinishDrop(0));
    RunGoesOn(trace, steps, FinishDrop(0), end);
    trace, steps := trace + [end], steps + [FinishDrop(0)];
  }

  /** Every untracked page can be reported free twice in one lifetime: allocate, share, drop, drop. */
  lemma UntrackedPageFreedTwice(p: Page) returns (trace: seq<State>, steps: seq<Step>)
    requires p >= MAX_PAGES
    ensures IsRun(trace, steps) && |steps| == 7
    ensures trace[7].Born(p) == 1 && trace[7].Reported(p) == 2
  {
    trace, steps := SharedUntracked(p);
    trace, steps := DroppedUntracked(trace, steps, p, {1, 2}, 1, map[]);
    assert {1, 2} - {1} == {2};
    trace, steps := DroppedUntracked(trace, steps, p, {2}, 2, map[p := 1]);
  }

  /** The first of the two drops reports wrongly. */
  lemma UntrackedPageMisreports(p: Page)
    requires p >= MAX_PAGES
    ensures exists trace, steps, n :: Misreports(trace, steps, n, p)
  {
    var trace, steps := SharedUntracked(p);
    trace, steps := DroppedUntracked(trace, steps, p, {1, 2}, 1, map[]);
    assert 2 in trace[5].Live(p);
    assert Misreports(trace, steps, 4, p);
  }

  /** No decrement of a page ever misreports, in any run, exactly when the page is tracked. */
  lemma ReportsExactIffTracked(p: Page)
    ensures (forall trace, steps, n :: !Misreports(trace, steps, n, p)) <==> p < MAX_PAGES
  {
    if p >= MAX_PAGES {
      UntrackedPageMisreports(p);
    } else {
      forall trace, steps, n | Misreports(trace, steps, n, p)
        ensures false
      {
        LastDropReports(trace, steps, n, p);
      }
    }
  }

  // ---- More references than the counter can tell from the mark ----

  /** One thread, one tracked page: the counter says `k`. */
  function Tracked(p: Page, k: nat, live: set<Ref>, pc: Pc, limit: nat): State {
    State(map[p := k], {}, map[p := live], map[0 := pc], map[p := 1], map[], limit)
  }

  lemma ShareLoads(p: Page, k: nat, live: set<Ref>, limit: nat)
    requires p < MAX_PAGES && 0 < k <= MAX_REFS && 0 in live && k !in live && |live| < limit
    ensures var s := Tracked(p, k, live, Idle, limit);
            Enabled(s, Share(0, p, 0, k)) && Next(s, Share(0, p, 0, k)) == Tracked(p, k, live, Sharing(p, 0, k), limit)
  {
    assert Reserved(Tracked(p, k, live, Idle, limit), p) == {};
  }

  lemma ShareAdds(p: Page, k: nat, live: set<Ref>, limit: nat)
    requires p < MAX_PAGES && 0 < k <= MAX_REFS
    ensures var m := Tracked(p, k, live, Sharing(p, 0, k), limit);
            Enabled(m, FinishShare(0)) && Next(m, FinishShare(0)) == Tracked(p, k + 1, live + {k}, Idle, limit)
  {
  }

  /** Sharing over and over until there are `k` references. */
  lemma {:induction false} ShareUpTo(p: Page, k: nat, limit: nat) returns (trace: seq<State>, steps: seq<Step>)
    requires p < MAX_PAGES && 0 < k <= MAX_REFS + 1 && k <= limit
    ensures IsRun(trace, steps) && trace[0].image == {} && trace[0].limit == limit
    ensures trace[|steps|] == Tracked(p, k, Below(k), Idle, limit)
  {
    if k == 1 {
      var s := State(map[], {}, map[], map[0 := Idle], map[], map[], limit);
      trace, steps := [s], [];
      assert Below(1) == {0};
      RunGoesOn(trace, steps, Allocate(0, p, 0), Tracked(p, 1, {0}, Idle, limit));
      trace, steps := trace + [Tracked(p, 1, {0}, Idle, limit)], steps + [Allocate(0, p, 0)];
    } else {
      trace, steps := ShareUpTo(p, k - 1, limit);
      ShareLoads(p, k - 1, Below(k - 1), limit);
      ShareAdds(p, k - 1, Below(k - 1), limit);
      assert Below(k) == Below(k - 1) + {k - 1};
      var m := Tracked(p, k - 1, Below(k - 1), Sharing(p, 0, k - 1), limit);
      RunGoesOn(trace, steps, Share(0, p, 0, k - 1), m);
      trace, steps := trace + [m], steps + [Share(0, p, 0, k - 1)];
      var end := Tracked(p, k, Below(k), Idle, limit);
      RunGoesOn(trace, steps, FinishShare(0), end);
      trace, steps := trace + [end], steps + [FinishShare(0)];
    }
  }

  lemma DropMarked(p: Page, live: set<Ref>, r: Ref, limit: nat)
    requires p < MAX_PAGES && r in live
    ensures var s := Tracked(p, KERNEL_IMAGE, live, Idle, limit);
            Enabled(s, Drop(0, p, r)) && Next(s, Drop(0, p, r)) == Tracked(p, KERNEL_IMAGE, live - {r}, Idle, limit)
  {
  }

  /** With the mark in the counter every reference goes without a word. */
  lemma {:induction false} DropAll(trace0: seq<State>, steps0: seq<Step>, p: Page, live: set<Ref>, limit: nat)
    returns (trace: seq<State>, steps: seq<Step>)
    requires p < MAX_PAGES && IsRun(trace0, steps0) && trace0[|steps0|] == Tracked(p, KERNEL_IMAGE, live, Idle, limit)
    ensures IsRun(trace, steps) && trace[0] == trace0[0]
    ensures trace[|steps|] == Tracked(p, KERNEL_IMAGE, {}, Idle, limit)
    decreases |live|
  {
    if live == {} {
      trace, steps := trace0, steps0;
    } else {
      var r :| r in live;
      DropMarked(p, live, r, limit);
      var next := Tracked(p, KERNEL_IMAGE, live - {r}, Idle, limit);
      RunGoesOn(trace0, steps0, Drop(0, p, r), next);
      trace, steps := DropAll(trace0 + [next], steps0 + [Drop(0, p, r)], p, live - {r}, limit);
    }
  }

  /** The 65535th reference turns the counter into the kernel-image mark; the page is then never
      reported free, although all its references go. */
  lemma TooManyReferencesLeak(p: Page, limit: nat) returns (trace: seq<State>, steps: seq<Step>)
    requires p < MAX_PAGES && limit > MAX_REFS
    ensures IsRun(trace, steps) && trace[0].limit == limit && p !in trace[0].image
    ensures trace[|steps|].Live(p) == {} && trace[|steps|].Born(p) == 1 && trace[|steps|].Reported(p) == 0
  {
    trace, steps := ShareUpTo(p, KERNEL_IMAGE, limit);
    trace, steps := DropAll(trace, steps, p, Below(KERNEL_IMAGE), limit);
  }

  /** At the end of state `n` the lifetimes of a page and its "free me" reports match one to one. */
  ghost predicate LifetimesReported(trace: seq<State>, n: nat, p: Page)
    requires n < |trace|
  {
    trace[n].Born(p) == trace[n].Reported(p) + if trace[n].Live(p) == {} then 0 else 1
  }

  ghost predicate RunWithin(trace: seq<State>, steps: seq<Step>, limit: nat, p: Page) {
    IsRun(trace, steps) && trace[0].limit == limit && p !in trace[0].image
  }

  /** Every lifetime of a tracked page is reported exactly once in every run, exactly when the
      address spaces never make more than 65534 references to a page. */
  lemma ReportedOnceIffWithinLimit(p: Page, limit: nat)
    requires p < MAX_PAGES
    ensures (forall trace, steps, n: nat :: RunWithin(trace, steps, limit, p) && n < |trace| ==> LifetimesReported(trace, n, p))
            <==> limit <= MAX_REFS
  {
    if limit <= MAX_REFS {
      forall trace, steps, n: nat | RunWithin(trace, steps, limit, p) && n < |trace|
        ensures LifetimesReported(trace, n, p)
      {
        CountIsLiveReferences(trace, steps, n, p);
      }
    } else {
      var trace, steps := TooManyReferencesLeak(p, limit);
      assert RunWithin(trace, steps, limit, p) && !LifetimesReported(trace, |steps|, p);
    }
  }
}
