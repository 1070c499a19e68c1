/** The acquire / spin / release protocol of `SpinLock` on top of the lockdep table, as a machine
    over all CPUs.  Acquire is check-and-push, then a spin, then ownership.  A guard drop is a pop
    from the table, then the unlock.  Interrupts may arrive on a CPU between any two steps and run
    a handler that takes locks itself, also while the interrupted code spins. */
module LockOrder {
  import opened Common
  import opened Lockdep

  type Lock = nat

  datatype Activity = Active | Spinning(lock: Lock) | Dropping(lock: Lock)

  /** One nesting level of a CPU; `base` is the table depth when the level was entered. */
  datatype Frame = Frame(base: nat, act: Activity)

  datatype Cpu = Cpu(held: seq<HeldLock>, frames: seq<Frame>) {
    predicate Live() { |frames| > 0 }

    function Top(): Frame
      requires Live()
    {
      frames[|frames| - 1]
    }

    function WithTop(act: Activity): Cpu
      requires Live()
    {
      this.(frames := frames[|frames| - 1 := Top().(act := act)])
    }

    /** Where the table segment of frame `k` ends. */
    function End(k: nat): nat
      requires k < |frames|
    {
      if k + 1 < |frames| then frames[k + 1].base else |held|
    }
  }

  datatype State = State(cpus: seq<Cpu>, owner: map<Lock, nat>)

  /** `locks` gives the rank of every lock; `unmasked` are the locks some guard of which is dropped
      with interrupts on (`lock_no_irq`, `lock_preempt`), `handler` those some interrupt handler takes. */
  datatype Config = Config(locks: map<Lock, nat>, unmasked: set<Lock>, handler: set<Lock>) {
    predicate Valid() {
      (forall l :: l in locks ==> locks[l] in RANKS) && unmasked <= locks.Keys && handler <= locks.Keys
    }

    /** No handler takes a lock that is dropped with interrupts on, or one of a lower rank. */
    predicate Disciplined()
      requires Valid()
    {
      forall l, h :: l in unmasked && h in handler ==> h != l && locks[l] <= locks[h]
    }
  }

  datatype Step =
    | Take(cpu: nat, lock: Lock, irqDisabled: bool)
    | Grab(cpu: nat)
    | Pop(cpu: nat, lock: Lock)
    | Unlock(cpu: nat)
    | Interrupt(cpu: nat)
    | Return(cpu: nat)

  ghost predicate Initial(s: State) {
    && |s.cpus| <= MAX_CPUS
    && s.owner == map[]
    && forall c :: 0 <= c < |s.cpus| ==> s.cpus[c] == Cpu([], [Frame(0, Active)])
  }

  /** What the step asks of its own CPU. */
  predicate Ready(g: Config, cpu: Cpu, step: Step) {
    && cpu.Live()
    && match step
       case Take(_, l, _) =>
         && cpu.Top().act == Active && l in g.locks && !Refuses(cpu.held, g.locks[l])
         && (|cpu.frames| > 1 ==> l in g.handler)
       case Grab(_) => cpu.Top().act.Spinning?
       case Pop(_, l) =>
         cpu.Top().act == Active && exists i :: cpu.Top().base <= i < |cpu.held| && cpu.held[i].addr == l
       case Unlock(_) => cpu.Top().act.Dropping?
       case Interrupt(_) => cpu.Top().act.Dropping? ==> cpu.Top().act.lock in g.unmasked
       case Return(_) => |cpu.frames| > 1 && cpu.Top() == Frame(|cpu.held|, Active)
  }

  predicate Enabled(g: Config, s: State, step: Step) {
    && step.cpu < |s.cpus|
    && Ready(g, s.cpus[step.cpu], step)
    && (step.Grab? ==> s.cpus[step.cpu].Top().act.lock !in s.owner)
  }

  function CpuAfter(g: Config, cpu: Cpu, step: Step): Cpu
    requires Ready(g, cpu, step)
  {
    match step
    case Take(_, l, irq) =>
      cpu.(held := Pushed(cpu.held, HeldLock(l, g.locks[l], irq))).WithTop(Spinning(l))
    case Grab(_) => cpu.WithTop(Active)
    case Pop(_, l) => cpu.(held := Released(cpu.held, l)).WithTop(Dropping(l))
    case Unlock(_) => cpu.WithTop(Active)
    case Interrupt(_) => cpu.(frames := cpu.frames + [Frame(|cpu.held|, Active)])
    case Return(_) => cpu.(frames := cpu.frames[..|cpu.frames| - 1])
  }

  function Next(g: Config, s: State, step: Step): State
    requires Enabled(g, s, step)
  {
    State(s.cpus[step.cpu := CpuAfter(g, s.cpus[step.cpu], step)],
          match step
          case Grab(c) => s.owner[s.cpus[c].Top().act.lock := c]
          case Unlock(c) => s.owner - {s.cpus[c].Top().act.lock}
          case _ => s.owner)
  }

  /** Every state a panic-free run of the given steps can be in. */
  ghost predicate Run(g: Config, s: State, steps: seq<Step>, t: State)
    decreases |steps|
  {
    if steps == [] then s == t
    else
      var n := |steps| - 1;
      exists m :: Run(g, s, steps[..n], m) && Enabled(g, m, steps[n]) && t == Next(g, m, steps[n])
  }

  // ---- The invariant ----

  ghost predicate SpinsAt(cpu: Cpu, k: int, i: int) {
    0 <= k < |cpu.frames| && cpu.frames[k].act.Spinning? && i == cpu.End(k) - 1
  }

  /** Entry `i` of the table was pushed but its spin has not succeeded yet. */
  ghost predicate Pending(cpu: Cpu, i: int) {
    exists k :: SpinsAt(cpu, k, i)
  }

  ghost predicate EntryOwned(cpu: Cpu, i: int, l: Lock) {
    0 <= i < |cpu.held| && cpu.held[i].addr == l && !Pending(cpu, i)
  }

  ghost predicate DropsAt(cpu: Cpu, k: int, l: Lock) {
    0 <= k < |cpu.frames| && cpu.frames[k].act == Dropping(l)
  }

  ghost predicate Drops(cpu: Cpu, l: Lock) {
    exists k :: DropsAt(cpu, k, l)
  }

  ghost predicate HasEntry(cpu: Cpu, l: Lock) {
    exists i :: EntryOwned(cpu, i, l)
  }

  ghost predicate Owns(cpu: Cpu, l: Lock) {
    HasEntry(cpu, l) || Drops(cpu, l)
  }

  ghost predicate TableOk(locks: map<Lock, nat>, cpu: Cpu) {
    && Increasing(cpu.held)
    && forall i :: 0 <= i < |cpu.held| ==>
         && cpu.held[i].addr in locks
         && cpu.held[i].rank == locks[cpu.held[i].addr]
  }

  ghost predicate FramesOk(cpu: Cpu) {
    && cpu.Live() && cpu.frames[0].base == 0
    && (forall j, k :: 0 <= j <= k < |cpu.frames| ==> cpu.frames[j].base <= cpu.frames[k].base)
    && cpu.Top().base <= |cpu.held|
    && (forall k, i :: SpinsAt(cpu, k, i) ==>
          && cpu.frames[k].base <= i < |cpu.held|
          && cpu.held[i].addr == cpu.frames[k].act.lock)
  }

  /** A lock being dropped has left the table; only a spin that cannot succeed may name it. */
  ghost predicate DropsOk(cpu: Cpu) {
    && (forall k, l :: DropsAt(cpu, k, l) ==> !HasEntry(cpu, l))
    && (forall j, k, l :: DropsAt(cpu, j, l) && DropsAt(cpu, k, l) ==> j == k)
  }

  /** Nested levels take handler locks; a level interrupted in a drop drops an unmasked lock. */
  ghost predicate NestOk(g: Config, cpu: Cpu) {
    && (forall k :: 0 < k < |cpu.frames| && cpu.frames[k].act.Spinning? ==> cpu.frames[k].act.lock in g.handler)
    && (forall k, l :: DropsAt(cpu, k, l) && k < |cpu.frames| - 1 ==> l in g.unmasked)
  }

  ghost predicate CpuOk(g: Config, cpu: Cpu) {
    TableOk(g.locks, cpu) && FramesOk(cpu) && DropsOk(cpu) && NestOk(g, cpu)
  }

  ghost predicate OwnershipOk(s: State) {
    && (forall l, c :: 0 <= c < |s.cpus| ==> (Owns(s.cpus[c], l) <==> l in s.owner && s.owner[l] == c))
    && (forall l :: l in s.owner ==> s.owner[l] < |s.cpus|)
  }

  ghost predicate Inv(g: Config, s: State) {
    && (forall c :: 0 <= c < |s.cpus| ==> CpuOk(g, s.cpus[c]))
    && OwnershipOk(s)
  }

  /** In a strictly ranked table a lock occurs once. */
  lemma AddressOnce(locks: map<Lock, nat>, cpu: Cpu, i: nat, j: nat)
    requires TableOk(locks, cpu) && i < |cpu.held| && j < |cpu.held|
    requires cpu.held[i].addr == cpu.held[j].addr
    ensures i == j
  {
  }

  lemma TableRanked(g: Config, cpu: Cpu)
    requires g.Valid() && TableOk(g.locks, cpu)
    ensures Ranked(cpu.held) && |cpu.held| <= 11
  {
    DepthAtMostEleven(cpu.held);
  }

  /** The lock whose ownership a step changes on its own CPU: gained by `Grab`, lost by `Unlock`. */
  ghost predicate OwnsAfter(cpu: Cpu, step: Step, l: Lock)
    requires cpu.Live()
  {
    match step
    case Grab(_) => Owns(cpu, l) || Spinning(l) == cpu.Top().act
    case Unlock(_) => Owns(cpu, l) && Dropping(l) != cpu.Top().act
    case _ => Owns(cpu, l)
  }

  /** Pending entries survive in both directions when the other spinning frames stay put. */
  lemma PendingSame(cpu: Cpu, cpu': Cpu, i: int)
    requires forall k :: SpinsAt(cpu, k, i) ==> SpinsAt(cpu', k, i)
    ensures Pending(cpu, i) ==> Pending(cpu', i)
  {
  }

  /** A new acquire spins at the new top of the table; the frames below are as they were. */
  lemma TakeSpins(g: Config, cpu: Cpu, step: Step, k: int, i: int)
    requires g.Valid() && CpuOk(g, cpu) && Ready(g, cpu, step) && step.Take?
    ensures SpinsAt(CpuAfter(g, cpu, step), k, i) <==> SpinsAt(cpu, k, i) || (k == |cpu.frames| - 1 && i == |cpu.held|)
  {
    TableRanked(g, cpu);
    var cpu' := CpuAfter(g, cpu, step);
    if 0 <= k < |cpu.frames| - 1 {
      assert cpu'.frames[k] == cpu.frames[k] && cpu'.frames[k + 1].base == cpu.frames[k + 1].base;
    }
  }

  lemma TakeFrames(g: Config, cpu: Cpu, step: Step)
    requires g.Valid() && CpuOk(g, cpu) && Ready(g, cpu, step) && step.Take?
    ensures TableOk(g.locks, CpuAfter(g, cpu, step)) && FramesOk(CpuAfter(g, cpu, step))
    ensures CpuAfter(g, cpu, step).held == cpu.held + [HeldLock(step.lock, g.locks[step.lock], step.irqDisabled)]
  {
    TableRanked(g, cpu);
    AcceptedPushKeepsOrder(cpu.held, HeldLock(step.lock, g.locks[step.lock], step.irqDisabled));
    var cpu' := CpuAfter(g, cpu, step);
    forall k, i | SpinsAt(cpu', k, i)
      ensures cpu'.frames[k].base <= i < |cpu'.held| && cpu'.held[i].addr == cpu'.frames[k].act.lock
    {
      TakeSpins(g, cpu, step, k, i);
    }
  }

  lemma TakeEntries(g: Config, cpu: Cpu, step: Step, i: int, l: Lock)
    requires g.Valid() && CpuOk(g, cpu) && Ready(g, cpu, step) && step.Take?
    ensures EntryOwned(CpuAfter(g, cpu, step), i, l) <==> EntryOwned(cpu, i, l)
  {
    TakeFrames(g, cpu, step);
    var cpu' := CpuAfter(g, cpu, step);
    var n := |cpu.frames| - 1;
    assert SpinsAt(cpu', n, |cpu.held|);
    forall k
      ensures SpinsAt(cpu', k, i) <==> SpinsAt(cpu, k, i) || (k == n && i == |cpu.held|)
    {
      TakeSpins(g, cpu, step, k, i);
    }
    PendingSame(cpu, cpu', i);
  }

  lemma GrabEntries(g: Config, cpu: Cpu, step: Step, i: int, l: Lock)
    requires CpuOk(g, cpu) && Ready(g, cpu, step) && step.Grab?
    ensures EntryOwned(CpuAfter(g, cpu, step), i, l)
            <==> EntryOwned(cpu, i, l) || (i == |cpu.held| - 1 && cpu.Top().act == Spinning(l))
  {
    var cpu' := CpuAfter(g, cpu, step);
    var n, last := |cpu.frames| - 1, |cpu.held| - 1;
    assert SpinsAt(cpu, n, last);
    PendingSame(cpu', cpu, i);
    if i == last {
      assert !Pending(cpu', last);
    } else if k :| SpinsAt(cpu, k, i) {
      assert SpinsAt(cpu', k, i);
    }
  }

  lemma PopTable(locks: map<Lock, nat>, cpu: Cpu, lock: Lock, p: nat)
    requires TableOk(locks, cpu) && p < |cpu.held| && cpu.held[p].addr == lock
    ensures Released(cpu.held, lock) == cpu.held[..p] + cpu.held[p + 1..]
    ensures TableOk(locks, cpu.(held := Released(cpu.held, lock)))
    ensures forall i :: 0 <= i < |cpu.held| && i != p ==> cpu.held[i].addr != lock
  {
    forall i | 0 <= i < |cpu.held| && cpu.held[i].addr == lock ensures i == p {
      AddressOnce(locks, cpu, i, p);
    }
    ReleasedSplits(cpu.held, lock, p);
  }

  predicate PopsAt(cpu: Cpu, lock: Lock, p: nat) {
    cpu.Live() && cpu.Top().base <= p < |cpu.held| && cpu.held[p].addr == lock
  }

  lemma PopSpins(g: Config, cpu: Cpu, step: Step, p: nat, k: int, i: int)
    requires CpuOk(g, cpu) && Ready(g, cpu, step) && step.Pop? && PopsAt(cpu, step.lock, p)
    ensures SpinsAt(CpuAfter(g, cpu, step), k, i) <==> SpinsAt(cpu, k, i)
    ensures SpinsAt(cpu, k, i) ==> i < p
  {
    var cpu' := CpuAfter(g, cpu, step);
    var n := |cpu.frames| - 1;
    if 0 <= k < n {
      assert cpu'.frames[k] == cpu.frames[k] && cpu'.frames[k + 1].base == cpu.frames[k + 1].base;
      assert cpu.frames[k + 1].base <= cpu.frames[n].base;
    }
  }

  lemma PopFrames(g: Config, cpu: Cpu, step: Step, p: nat)
    requires CpuOk(g, cpu) && Ready(g, cpu, step) && step.Pop? && PopsAt(cpu, step.lock, p)
    ensures TableOk(g.locks, CpuAfter(g, cpu, step)) && FramesOk(CpuAfter(g, cpu, step))
    ensures CpuAfter(g, cpu, step).held == cpu.held[..p] + cpu.held[p + 1..]
  {
    PopTable(g.locks, cpu, step.lock, p);
    var cpu' := CpuAfter(g, cpu, step);
    forall k, i | SpinsAt(cpu', k, i)
      ensures cpu'.frames[k].base <= i < |cpu'.held| && cpu'.held[i].addr == cpu'.frames[k].act.lock
    {
      PopSpins(g, cpu, step, p, k, i);
    }
  }

  /** Where an entry that survives a pop at `p` was before it. */
  function Unshifted(i: int, p: nat): int {
    if i < p then i else i + 1
  }

  lemma PopEntries(g: Config, cpu: Cpu, step: Step, p: nat, i: int, l: Lock)
    requires CpuOk(g, cpu) && Ready(g, cpu, step) && step.Pop? && PopsAt(cpu, step.lock, p)
    ensures EntryOwned(CpuAfter(g, cpu, step), i, l) <==> EntryOwned(cpu, Unshifted(i, p), l)
  {
    PopFrames(g, cpu, step, p);
    var cpu' := CpuAfter(g, cpu, step);
    forall k, j ensures SpinsAt(cpu', k, j) <==> SpinsAt(cpu, k, j)
            ensures SpinsAt(cpu, k, j) ==> j < p
    {
      PopSpins(g, cpu, step, p, k, j);
    }
    assert Pending(cpu', i) <==> Pending(cpu, Unshifted(i, p));
  }

  /** Frames keep their spins when the top settles or a level is entered or left. */
  lemma SettleEntries(g: Config, cpu: Cpu, step: Step, i: int, l: Lock)
    requires CpuOk(g, cpu) && Ready(g, cpu, step) && (step.Unlock? || step.Interrupt? || step.Return?)
    ensures EntryOwned(CpuAfter(g, cpu, step), i, l) <==> EntryOwned(cpu, i, l)
  {
    var cpu' := CpuAfter(g, cpu, step);
    PendingSame(cpu', cpu, i);
    PendingSame(cpu, cpu', i);
  }

  lemma SettleFrames(g: Config, cpu: Cpu, step: Step)
    requires CpuOk(g, cpu) && Ready(g, cpu, step) && (step.Grab? || step.Unlock? || step.Interrupt? || step.Return?)
    ensures TableOk(g.locks, CpuAfter(g, cpu, step)) && FramesOk(CpuAfter(g, cpu, step))
  {
    var cpu' := CpuAfter(g, cpu, step);
    forall k, i | SpinsAt(cpu', k, i) ensures SpinsAt(cpu, k, i) {
    }
  }

  /** The table entries owned after a step are those owned before, up to the popped or grabbed one. */
  ghost predicate EntriesFollow(cpu: Cpu, cpu': Cpu, step: Step, l: Lock)
    requires cpu.Live()
  {
    match step
    case Grab(_) => HasEntry(cpu', l) <==> HasEntry(cpu, l) || cpu.Top().act == Spinning(l)
    case Pop(_, q) => if q == l then !HasEntry(cpu', l) && HasEntry(cpu, l) else HasEntry(cpu', l) <==> HasEntry(cpu, l)
    case _ => HasEntry(cpu', l) <==> HasEntry(cpu, l)
  }

  lemma PopsOwn(g: Config, cpu: Cpu, step: Step, p: nat)
    requires CpuOk(g, cpu) && Ready(g, cpu, step) && step.Pop? && PopsAt(cpu, step.lock, p)
    ensures !HasEntry(CpuAfter(g, cpu, step), step.lock) && HasEntry(cpu, step.lock)
  {
    var cpu', l := CpuAfter(g, cpu, step), step.lock;
    PopFrames(g, cpu, step, p);
    PopTable(g.locks, cpu, l, p);
    assert EntryOwned(cpu, p, l);
    forall i
      ensures !EntryOwned(cpu', i, l)
    {
      PopEntries(g, cpu, step, p, i, l);
    }
  }

  lemma PopsOther(g: Config, cpu: Cpu, step: Step, p: nat, l: Lock)
    requires CpuOk(g, cpu) && Ready(g, cpu, step) && step.Pop? && PopsAt(cpu, step.lock, p) && l != step.lock
    ensures HasEntry(CpuAfter(g, cpu, step), l) <==> HasEntry(cpu, l)
  {
    var cpu' := CpuAfter(g, cpu, step);
    if i :| EntryOwned(cpu, i, l) {
      var j := if i < p then i else i - 1;
      PopEntries(g, cpu, step, p, j, l);
      assert EntryOwned(cpu', j, l);
    }
    if i :| EntryOwned(cpu', i, l) {
      PopEntries(g, cpu, step, p, i, l);
    }
  }

  lemma PopFollows(g: Config, cpu: Cpu, step: Step, l: Lock)
    requires CpuOk(g, cpu) && Ready(g, cpu, step) && step.Pop?
    ensures EntriesFollow(cpu, CpuAfter(g, cpu, step), step, l)
  {
    var p :| cpu.Top().base <= p < |cpu.held| && cpu.held[p].addr == step.lock;
    if l == step.lock {
      PopsOwn(g, cpu, step, p);
    } else {
      PopsOther(g, cpu, step, p, l);
    }
  }

  lemma EntriesAfter(g: Config, cpu: Cpu, step: Step, l: Lock)
    requires g.Valid() && CpuOk(g, cpu) && Ready(g, cpu, step)
    ensures EntriesFollow(cpu, CpuAfter(g, cpu, step), step, l)
  {
    var cpu' := CpuAfter(g, cpu, step);
    if step.Pop? {
      PopFollows(g, cpu, step, l);
    } else {
      if step.Grab? {
        GrabEntries(g, cpu, step, |cpu.held| - 1, l);
      }
      forall i
        ensures EntryOwned(cpu', i, l) <==>
                EntryOwned(cpu, i, l) || (step.Grab? && i == |cpu.held| - 1 && cpu.Top().act == Spinning(l))
      {
        match step {
          case Take(_, _, _) => TakeEntries(g, cpu, step, i, l);
          case Grab(_) => GrabEntries(g, cpu, step, i, l);
          case _ => SettleEntries(g, cpu, step, i, l);
        }
      }
    }
  }

  /** What is being dropped after a step. */
  ghost predicate DropsFollow(cpu: Cpu, cpu': Cpu, step: Step, k: int, l: Lock)
    requires cpu.Live()
  {
    var top := |cpu.frames| - 1;
    match step
    case Pop(_, q) => DropsAt(cpu', k, l) <==> DropsAt(cpu, k, l) || (k == top && l == q)
    case Unlock(_) => DropsAt(cpu', k, l) <==> DropsAt(cpu, k, l) && k != top
    case _ => DropsAt(cpu', k, l) <==> DropsAt(cpu, k, l)
  }

  lemma DropsAfter(g: Config, cpu: Cpu, step: Step, k: int, l: Lock)
    requires Ready(g, cpu, step)
    ensures DropsFollow(cpu, CpuAfter(g, cpu, step), step, k, l)
  {
  }

  lemma DropsOkAfter(g: Config, cpu: Cpu, step: Step)
    requires g.Valid() && CpuOk(g, cpu) && Ready(g, cpu, step)
    requires step.Grab? ==> !Drops(cpu, cpu.Top().act.lock)
    ensures DropsOk(CpuAfter(g, cpu, step))
  {
    var cpu' := CpuAfter(g, cpu, step);
    forall k, l
      ensures DropsFollow(cpu, cpu', step, k, l)
    {
      DropsAfter(g, cpu, step, k, l);
    }
    forall k, l | DropsAt(cpu', k, l)
      ensures !HasEntry(cpu', l)
    {
      EntriesAfter(g, cpu, step, l);
      assert DropsFollow(cpu, cpu', step, k, l);
      assert step.Grab? ==> Drops(cpu, l);
    }
    if step.Pop? {
      EntriesAfter(g, cpu, step, step.lock);
      assert forall j :: !DropsAt(cpu, j, step.lock);
    }
    forall j, k, l | DropsAt(cpu', j, l) && DropsAt(cpu', k, l)
      ensures j == k
    {
      assert DropsFollow(cpu, cpu', step, j, l) && DropsFollow(cpu, cpu', step, k, l);
    }
  }

  lemma NestOkAfter(g: Config, cpu: Cpu, step: Step)
    requires CpuOk(g, cpu) && Ready(g, cpu, step)
    ensures NestOk(g, CpuAfter(g, cpu, step))
  {
    var cpu' := CpuAfter(g, cpu, step);
    var top := |cpu.frames| - 1;
    forall k, l | DropsAt(cpu', k, l) && k < |cpu'.frames| - 1
      ensures l in g.unmasked
    {
      DropsAfter(g, cpu, step, k, l);
      assert k == top ==> cpu.Top().act == Dropping(l);
    }
    forall k | 0 < k < |cpu'.frames| && cpu'.frames[k].act.Spinning?
      ensures cpu'.frames[k].act.lock in g.handler
    {
      assert k < |cpu.frames| && ((k == top && step.Take?) || cpu'.frames[k].act == cpu.frames[k].act);
    }
  }

  lemma LocalOk(g: Config, cpu: Cpu, step: Step)
    requires g.Valid() && CpuOk(g, cpu) && Ready(g, cpu, step)
    requires step.Grab? ==> !Drops(cpu, cpu.Top().act.lock)
    ensures CpuOk(g, CpuAfter(g, cpu, step))
  {
    DropsOkAfter(g, cpu, step);
    NestOkAfter(g, cpu, step);
    match step {
      case Take(_, _, _) => TakeFrames(g, cpu, step);
      case Pop(_, l) =>
        var p :| cpu.Top().base <= p < |cpu.held| && cpu.held[p].addr == l;
        PopFrames(g, cpu, step, p);
      case _ => SettleFrames(g, cpu, step);
    }
  }

  lemma UnlockOwns(g: Config, cpu: Cpu, step: Step, l: Lock)
    requires g.Valid() && CpuOk(g, cpu) && Ready(g, cpu, step) && step.Unlock?
    ensures Owns(CpuAfter(g, cpu, step), l) <==> OwnsAfter(cpu, step, l)
  {
    var cpu' := CpuAfter(g, cpu, step);
    var top := |cpu.frames| - 1;
    EntriesAfter(g, cpu, step, l);
    if cpu.Top().act == Dropping(l) {
      assert DropsAt(cpu, top, l);
      forall k
        ensures !DropsAt(cpu', k, l)
      {
        DropsAfter(g, cpu, step, k, l);
      }
    } else {
      if k :| DropsAt(cpu, k, l) {
        assert DropsAt(cpu', k, l);
      }
      if k :| DropsAt(cpu', k, l) {
        assert DropsAt(cpu, k, l);
      }
    }
  }

  /** A step changes ownership only of the lock it is about. */
  lemma LocalOwns(g: Config, cpu: Cpu, step: Step, l: Lock)
    requires g.Valid() && CpuOk(g, cpu) && Ready(g, cpu, step)
    ensures Owns(CpuAfter(g, cpu, step), l) <==> OwnsAfter(cpu, step, l)
  {
    if step.Unlock? {
      UnlockOwns(g, cpu, step, l);
    } else {
      var cpu' := CpuAfter(g, cpu, step);
      EntriesAfter(g, cpu, step, l);
      DropsAfter(g, cpu, step, |cpu.frames| - 1, l);
      if k :| DropsAt(cpu, k, l) {
        DropsAfter(g, cpu, step, k, l);
      }
      if k :| DropsAt(cpu', k, l) {
        DropsAfter(g, cpu, step, k, l);
      }
    }
  }

  lemma OwnershipFollows(s: State, s': State, c: nat, step: Step)
    requires OwnershipOk(s) && c < |s.cpus| == |s'.cpus| && s.cpus[c].Live()
    requires forall d :: 0 <= d < |s.cpus| && d != c ==> s'.cpus[d] == s.cpus[d]
    requires forall l :: Owns(s'.cpus[c], l) <==> OwnsAfter(s.cpus[c], step, l)
    requires step.Grab? ==> s.cpus[c].Top().act.Spinning? && s.cpus[c].Top().act.lock !in s.owner
    requires step.Unlock? ==> s.cpus[c].Top().act.Dropping?
    requires s'.owner == match step
                         case Grab(_) => s.owner[s.cpus[c].Top().act.lock := c]
                         case Unlock(_) => s.owner - {s.cpus[c].Top().act.lock}
                         case _ => s.owner
    ensures OwnershipOk(s')
  {
    if step.Unlock? {
      assert DropsAt(s.cpus[c], |s.cpus[c].frames| - 1, s.cpus[c].Top().act.lock);
      assert Owns(s.cpus[c], s.cpus[c].Top().act.lock);
    }
    forall l, d | 0 <= d < |s.cpus| ensures Owns(s'.cpus[d], l) <==> l in s'.owner && s'.owner[l] == d {
      assert Owns(s.cpus[d], l) <==> l in s.owner && s.owner[l] == d;
    }
  }

  /** Every step keeps the invariant, whatever guards are dropped with interrupts on. */
  lemma StepKeepsInv(g: Config, s: State, step: Step)
    requires g.Valid() && Inv(g, s) && Enabled(g, s, step)
    ensures Inv(g, Next(g, s, step))
  {
    var cpu := s.cpus[step.cpu];
    if step.Grab? {
      assert !Owns(cpu, cpu.Top().act.lock);
    }
    LocalOk(g, cpu, step);
    forall l ensures Owns(CpuAfter(g, cpu, step), l) <==> OwnsAfter(cpu, step, l) {
      LocalOwns(g, cpu, step, l);
    }
    OwnershipFollows(s, Next(g, s, step), step.cpu, step);
  }

  lemma {:induction false} EveryRunKeepsInv(g: Config, s: State, steps: seq<Step>, t: State)
    requires g.Valid() && Initial(s) && Run(g, s, steps, t)
    ensures Inv(g, t) && |t.cpus| <= MAX_CPUS
    decreases |steps|
  {
    if steps != [] {
      var n := |steps| - 1;
      var m :| Run(g, s, steps[..n], m) && Enabled(g, m, steps[n]) && t == Next(g, m, steps[n]);
      EveryRunKeepsInv(g, s, steps[..n], m);
      StepKeepsInv(g, m, steps[n]);
    }
  }

  // ---- Deadlock freedom ----

  predicate Spins(s: State, c: nat) {
    c < |s.cpus| && s.cpus[c].Live() && s.cpus[c].Top().act.Spinning?
  }

  function SpunOn(s: State, c: nat): Lock
    requires Spins(s, c)
  {
    s.cpus[c].Top().act.lock
  }

  /** CPU `c` spins on a lock that CPU `d` owns. */
  predicate WaitsFor(s: State, c: nat, d: nat) {
    Spins(s, c) && SpunOn(s, c) in s.owner && s.owner[SpunOn(s, c)] == d
  }

  predicate WaitChain(s: State, path: seq<nat>) {
    forall i :: 0 <= i < |path| - 1 ==> WaitsFor(s, path[i], path[i + 1])
  }

  predicate CanGrab(s: State, c: nat) {
    Spins(s, c) && SpunOn(s, c) !in s.owner
  }

  lemma SpinsOnEntry(g: Config, s: State, c: nat)
    requires Inv(g, s) && Spins(s, c)
    ensures var cpu := s.cpus[c];
            cpu.held != [] && cpu.held[|cpu.held| - 1].addr == SpunOn(s, c) && Pending(cpu, |cpu.held| - 1)
    ensures SpunOn(s, c) in g.locks && s.cpus[c].held[|s.cpus[c].held| - 1].rank == g.locks[SpunOn(s, c)]
  {
    var cpu := s.cpus[c];
    assert SpinsAt(cpu, |cpu.frames| - 1, |cpu.held| - 1);
  }

  /** Along a wait-for edge the rank of the lock spun on climbs, unless the owner was interrupted
      while it dropped that lock; then the owner spins on a handler lock. */
  lemma RankClimbs(g: Config, s: State, c: nat, d: nat)
    requires g.Valid() && Inv(g, s) && WaitsFor(s, c, d)
    ensures d < |s.cpus| && SpunOn(s, c) in g.locks
    ensures Spins(s, d) ==>
              && SpunOn(s, d) in g.locks
              && (|| g.locks[SpunOn(s, c)] < g.locks[SpunOn(s, d)]
                  || (SpunOn(s, c) in g.unmasked && SpunOn(s, d) in g.handler))
  {
    var l := SpunOn(s, c);
    var dd := s.cpus[d];
    SpinsOnEntry(g, s, c);
    assert Owns(dd, l);
    if Spins(s, d) {
      SpinsOnEntry(g, s, d);
      var top := |dd.frames| - 1;
      if i :| EntryOwned(dd, i, l) {
        assert dd.held[i].rank < dd.held[|dd.held| - 1].rank;
      } else {
        var k :| DropsAt(dd, k, l);
        assert k < top;
      }
    }
  }

  /** How far a lock is from the end of every wait chain, with discipline. */
  ghost function Height(g: Config, l: Lock): nat
    requires l in g.locks
  {
    2 * |RanksAbove(g.locks[l])| + if l in g.unmasked then 1 else 0
  }

  ghost function RanksAbove(r: int): set<nat> {
    set x | x in RANKS && x > r
  }

  lemma FewerRanksAbove(r: int, x: nat)
    requires x in RANKS && r < x
    ensures |RanksAbove(x)| < |RanksAbove(r)|
  {
    assert x !in RanksAbove(x);
    assert RanksAbove(x) + {x} <= RanksAbove(r);
    SubsetSize(RanksAbove(x) + {x}, RanksAbove(r));
  }

  lemma HeightFalls(g: Config, s: State, c: nat, d: nat)
    requires g.Valid() && g.Disciplined() && Inv(g, s) && WaitsFor(s, c, d) && Spins(s, d)
    ensures SpunOn(s, c) in g.locks && SpunOn(s, d) in g.locks
    ensures Height(g, SpunOn(s, d)) < Height(g, SpunOn(s, c))
  {
    RankClimbs(g, s, c, d);
    var a, b := SpunOn(s, c), SpunOn(s, d);
    if g.locks[a] < g.locks[b] {
      FewerRanksAbove(g.locks[a], g.locks[b]);
    } else {
      assert b !in g.unmasked;
    }
  }

  lemma {:induction false} ChainFalls(g: Config, s: State, path: seq<nat>)
    requires g.Valid() && g.Disciplined() && Inv(g, s) && |path| >= 2 && WaitChain(s, path)
    requires Spins(s, path[|path| - 1])
    ensures Spins(s, path[0])
    ensures SpunOn(s, path[0]) in g.locks && SpunOn(s, path[|path| - 1]) in g.locks
    ensures Height(g, SpunOn(s, path[|path| - 1])) < Height(g, SpunOn(s, path[0]))
  {
    var n := |path| - 1;
    assert WaitsFor(s, path[n - 1], path[n]);
    HeightFalls(g, s, path[n - 1], path[n]);
    if |path| > 2 {
      var shorter := path[..n];
      assert WaitChain(s, shorter);
      assert shorter[|shorter| - 1] == path[n - 1];
      ChainFalls(g, s, shorter);
    }
  }

  /** No CPU waits for itself, directly or through any number of other CPUs. */
  lemma NoWaitCycle(g: Config, s: State, path: seq<nat>)
    requires g.Valid() && g.Disciplined() && Inv(g, s) && |path| >= 2 && WaitChain(s, path)
    ensures path[0] != path[|path| - 1]
  {
    assert WaitsFor(s, path[0], path[1]);
    if path[0] == path[|path| - 1] {
      ChainFalls(g, s, path);
      assert false;
    }
  }

  /** `path` leads along wait-for edges from `c`, over different CPUs, to one that can go on. */
  ghost predicate UnblocksFrom(s: State, c: nat, path: seq<nat>) {
    && 0 < |path| <= |s.cpus| && AllDifferent(path)
    && path[0] == c
    && WaitChain(s, path)
    && var d := path[|path| - 1];
    && d < |s.cpus|
    && (CanGrab(s, d) || !Spins(s, d))
  }

  /** Follow the wait-for edges; every edge comes closer to the end. */
  lemma {:induction false} FollowWaits(g: Config, s: State, c: nat) returns (path: seq<nat>)
    requires g.Valid() && g.Disciplined() && Inv(g, s) && Spins(s, c) && SpunOn(s, c) in g.locks
    ensures path != [] && path[0] == c && WaitChain(s, path)
    ensures forall i :: 0 <= i < |path| ==> path[i] < |s.cpus|
    ensures var d := path[|path| - 1]; CanGrab(s, d) || !Spins(s, d)
    decreases Height(g, SpunOn(s, c))
  {
    if CanGrab(s, c) {
      path := [c];
    } else {
      var d := s.owner[SpunOn(s, c)];
      RankClimbs(g, s, c, d);
      if !Spins(s, d) {
        path := [c, d];
      } else {
        HeightFalls(g, s, c, d);
        var rest := FollowWaits(g, s, d);
        path := [c] + rest;
        assert forall i :: 1 <= i < |path| ==> path[i] == rest[i - 1];
      }
    }
  }

  predicate AllDifferent(path: seq<nat>) {
    forall i, j :: 0 <= i < j < |path| ==> path[i] != path[j]
  }

  lemma ChainVisitsOnce(g: Config, s: State, path: seq<nat>)
    requires g.Valid() && g.Disciplined() && Inv(g, s) && WaitChain(s, path)
    ensures AllDifferent(path)
  {
    forall i, j | 0 <= i < j < |path|
      ensures path[i] != path[j]
    {
      var part := path[i..j + 1];
      forall k | 0 <= k < |part| - 1
        ensures WaitsFor(s, part[k], part[k + 1])
      {
        assert WaitsFor(s, path[i + k], path[i + k + 1]);
      }
      NoWaitCycle(g, s, part);
    }
  }

  /** Different numbers below `n` are at most `n` many. */
  lemma AtMostCpus(path: seq<nat>, n: nat)
    requires AllDifferent(path) && forall i :: 0 <= i < |path| ==> path[i] < n
    ensures |path| <= n
  {
    ElementsOf(path);
    SubsetSize(set i | 0 <= i < |path| :: path[i], Below(n));
  }

  lemma {:induction false} ElementsOf(path: seq<nat>)
    requires AllDifferent(path)
    ensures |set i | 0 <= i < |path| :: path[i]| == |path|
  {
    if path != [] {
      var rest, last := path[..|path| - 1], path[|path| - 1];
      ElementsOf(rest);
      var all, some := set i | 0 <= i < |path| :: path[i], set i | 0 <= i < |rest| :: rest[i];
      forall x | x in all
        ensures x in some + {last}
      {
        var i :| 0 <= i < |path| && path[i] == x;
        assert i < |rest| ==> rest[i] == x;
      }
      forall x | x in some
        ensures x in all
      {
        var i :| 0 <= i < |rest| && rest[i] == x;
        assert path[i] == x;
      }
      assert all == some + {last} && last !in some;
    }
  }

  lemma SpinnerUnblocks(g: Config, t: State, c: nat)
    requires g.Valid() && g.Disciplined() && Inv(g, t) && Spins(t, c)
    ensures exists path :: UnblocksFrom(t, c, path)
  {
    SpinsOnEntry(g, t, c);
    var path := FollowWaits(g, t, c);
    ChainVisitsOnce(g, t, path);
    AtMostCpus(path, |t.cpus|);
    assert UnblocksFrom(t, c, path);
  }

  /** Deadlock freedom: in every reachable state of every panic-free run of a disciplined system,
      each spinning CPU leads, along wait-for edges over different CPUs, to one that can take its
      lock now or is not spinning; no wait-for chain is a cycle. */
  lemma DeadlockFree(g: Config, s: State, steps: seq<Step>, t: State)
    requires g.Valid() && g.Disciplined() && Initial(s) && Run(g, s, steps, t)
    ensures forall c: nat :: Spins(t, c) ==> exists path :: UnblocksFrom(t, c, path)
    ensures forall path :: |path| >= 2 && WaitChain(t, path) ==> path[0] != path[|path| - 1]
  {
    EveryRunKeepsInv(g, s, steps, t);
    forall c: nat | Spins(t, c) ensures exists path :: UnblocksFrom(t, c, path) {
      SpinnerUnblocks(g, t, c);
    }
    forall path | |path| >= 2 && WaitChain(t, path) ensures path[0] != path[|path| - 1] {
      NoWaitCycle(g, t, path);
    }
  }

  // ---- Every wait can end ----

  /** A handler that does nothing leaves the interrupted CPU, and everything else, as it was. */
  lemma InterruptThenReturn(g: Config, s: State, c: nat)
    requires Enabled(g, s, Interrupt(c))
    ensures Enabled(g, Next(g, s, Interrupt(c)), Return(c))
    ensures Next(g, Next(g, s, Interrupt(c)), Return(c)) == s
  {
    var cpu := s.cpus[c];
    var inner := CpuAfter(g, cpu, Interrupt(c));
    assert inner.frames[..|inner.frames| - 1] == cpu.frames;
    assert CpuAfter(g, inner, Return(c)) == cpu;
    assert Next(g, Next(g, s, Interrupt(c)), Return(c)).cpus == s.cpus;
  }

  /** An interrupt can arrive on every CPU of every reachable state, whatever it is doing, except
      between the pop and the unlock of a guard that masks interrupts. */
  lemma InterruptsArrive(g: Config, s: State, steps: seq<Step>, t: State, c: nat)
    requires g.Valid() && Initial(s) && Run(g, s, steps, t) && c < |t.cpus|
    ensures t.cpus[c].Live()
    ensures Enabled(g, t, Interrupt(c)) <==> forall l :: t.cpus[c].Top().act == Dropping(l) ==> l in g.unmasked
  {
    EveryRunKeepsInv(g, s, steps, t);
    assert CpuOk(g, t.cpus[c]);
    var act := t.cpus[c].Top().act;
    assert act.Dropping? ==> act == Dropping(act.lock);
  }

  /** A running CPU may take any free lock that ranks above all it holds, and then owns just that
      lock in addition. */
  lemma AcquireGets(g: Config, s: State, c: nat, l: Lock, irq: bool)
    requires g.Valid() && Inv(g, s) && c < |s.cpus| && s.cpus[c].Top().act == Active
    requires l in g.locks && l !in s.owner && (|s.cpus[c].frames| > 1 ==> l in g.handler)
    requires forall i :: 0 <= i < |s.cpus[c].held| ==> s.cpus[c].held[i].rank < g.locks[l]
    ensures Enabled(g, s, Take(c, l, irq)) && Enabled(g, Next(g, s, Take(c, l, irq)), Grab(c))
    ensures Next(g, Next(g, s, Take(c, l, irq)), Grab(c)).owner == s.owner[l := c]
  {
    assert CpuOk(g, s.cpus[c]);
  }

  /** A running CPU may drop any lock it took at its current level, in any order, and loses just
      that lock. */
  lemma DropReleases(g: Config, s: State, c: nat, i: nat)
    requires g.Valid() && Inv(g, s) && c < |s.cpus| && s.cpus[c].Top().act == Active
    requires s.cpus[c].Top().base <= i < |s.cpus[c].held|
    ensures var l := s.cpus[c].held[i].addr;
            && l in s.owner && s.owner[l] == c
            && Enabled(g, s, Pop(c, l)) && Enabled(g, Next(g, s, Pop(c, l)), Unlock(c))
            && Next(g, Next(g, s, Pop(c, l)), Unlock(c)).owner == s.owner - {l}
  {
    var cpu := s.cpus[c];
    var l := cpu.held[i].addr;
    assert CpuOk(g, cpu);
    assert Ready(g, cpu, Pop(c, l));
    PopFrames(g, cpu, Pop(c, l), i);
    assert EntryOwned(cpu, i, l);
    assert Owns(cpu, l);
  }

  /** Frames that spin or drop. */
  function Busy(frames: seq<Frame>): nat {
    if frames == [] then 0
    else Busy(frames[..|frames| - 1]) + if frames[|frames| - 1].act == Active then 0 else 1
  }

  /** What a CPU still has to do before it is idle. */
  function Load(cpu: Cpu): nat {
    2 * |cpu.held| + |cpu.frames| + Busy(cpu.frames)
  }

  function TotalLoad(cpus: seq<Cpu>): nat {
    if cpus == [] then 0 else TotalLoad(cpus[..|cpus| - 1]) + Load(cpus[|cpus| - 1])
  }

  lemma {:induction false} TotalLoadUpdate(cpus: seq<Cpu>, c: nat, cpu: Cpu)
    requires c < |cpus|
    ensures TotalLoad(cpus[c := cpu]) == TotalLoad(cpus) - Load(cpus[c]) + Load(cpu)
  {
    var n := |cpus| - 1;
    if c < n {
      TotalLoadUpdate(cpus[..n], c, cpu);
      assert cpus[c := cpu][..n] == cpus[..n][c := cpu];
    } else {
      assert cpus[c := cpu][..n] == cpus[..n];
    }
  }

  /** The steps that finish something begun. */
  predicate Finishing(step: Step) {
    step.Grab? || step.Pop? || step.Unlock? || step.Return?
  }

  lemma BusyTop(frames: seq<Frame>, f: Frame)
    requires frames != []
    ensures var n := |frames| - 1;
            Busy(frames[n := f]) == Busy(frames[..n]) + if f.act == Active then 0 else 1
  {
    var n := |frames| - 1;
    assert frames[n := f][..n] == frames[..n];
  }

  lemma FinishingLightens(g: Config, cpu: Cpu, step: Step)
    requires g.Valid() && CpuOk(g, cpu) && Ready(g, cpu, step) && Finishing(step)
    ensures Load(CpuAfter(g, cpu, step)) < Load(cpu)
  {
    var cpu' := CpuAfter(g, cpu, step);
    if step.Return? {
      assert cpu.Top().act == Active;
    } else {
      BusyTop(cpu.frames, cpu'.Top());
      if step.Pop? {
        var p :| cpu.Top().base <= p < |cpu.held| && cpu.held[p].addr == step.lock;
        PopFrames(g, cpu, step, p);
      }
    }
  }

  lemma IdleOwnsNothing(cpu: Cpu, l: Lock)
    ensures cpu.held == [] && |cpu.frames| == 1 && cpu.frames[0].act == Active ==> !Owns(cpu, l)
  {
  }

  /** A CPU that owns a lock and does not spin can finish something. */
  lemma OwnerCanGoOn(g: Config, s: State, d: nat, l: Lock) returns (step: Step)
    requires Inv(g, s) && d < |s.cpus| && !Spins(s, d) && Owns(s.cpus[d], l)
    ensures step.cpu == d && Finishing(step) && Enabled(g, s, step)
  {
    var cpu := s.cpus[d];
    var top := cpu.Top();
    if top.act.Dropping? {
      step := Unlock(d);
    } else if top.base < |cpu.held| {
      step := Pop(d, cpu.held[|cpu.held| - 1].addr);
    } else {
      IdleOwnsNothing(cpu, l);
      step := Return(d);
    }
  }

  /** While some CPU spins, some CPU can finish something. */
  lemma SomebodyCanGoOn(g: Config, s: State, c: nat) returns (step: Step)
    requires g.Valid() && g.Disciplined() && Inv(g, s) && Spins(s, c)
    ensures Finishing(step) && Enabled(g, s, step)
  {
    SpinnerUnblocks(g, s, c);
    var path :| UnblocksFrom(s, c, path);
    var d := path[|path| - 1];
    if CanGrab(s, d) {
      step := Grab(d);
    } else {
      var b := path[|path| - 2];
      assert WaitsFor(s, path[|path| - 2], path[|path| - 1]);
      assert Owns(s.cpus[d], SpunOn(s, b));
      step := OwnerCanGoOn(g, s, d, SpunOn(s, b));
    }
  }

  lemma FinishingLightensAll(g: Config, s: State, step: Step)
    requires g.Valid() && Inv(g, s) && Enabled(g, s, step) && Finishing(step)
    ensures TotalLoad(Next(g, s, step).cpus) < TotalLoad(s.cpus)
  {
    FinishingLightens(g, s.cpus[step.cpu], step);
    TotalLoadUpdate(s.cpus, step.cpu, CpuAfter(g, s.cpus[step.cpu], step));
  }

  lemma RunGoesOn(g: Config, s: State, steps: seq<Step>, m: State, step: Step)
    requires Run(g, s, steps, m) && Enabled(g, m, step)
    ensures Run(g, s, steps + [step], Next(g, m, step))
  {
    assert (steps + [step])[..|steps|] == steps;
  }

  lemma SpinnerAfter(g: Config, s: State, step: Step, c: nat)
    requires Enabled(g, s, step) && Finishing(step) && Spins(s, c)
    ensures var t, l := Next(g, s, step), SpunOn(s, c);
            if step.cpu == c then l in t.owner && t.owner[l] == c && !Spins(t, c) else Spins(t, c) && SpunOn(t, c) == l
  {
  }

  lemma FinishingFrom(first: seq<Step>, more: seq<Step>, all: seq<Step>)
    requires first <= more <= all && |more| == |first| + 1 && Finishing(more[|first|])
    requires forall i :: |more| <= i < |all| ==> Finishing(all[i])
    ensures first <= all && forall i :: |first| <= i < |all| ==> Finishing(all[i])
  {
    assert all[|first|] == more[|first|];
  }

  /** Let the others finish what they have begun until the spin of `c` succeeds. */
  lemma {:induction false} SpinnerGets(g: Config, s: State, steps0: seq<Step>, t0: State, c: nat)
    returns (steps: seq<Step>, t: State)
    requires g.Valid() && g.Disciplined() && Run(g, s, steps0, t0) && Inv(g, t0) && Spins(t0, c)
    ensures Run(g, s, steps, t) && steps0 <= steps && (forall i :: |steps0| <= i < |steps| ==> Finishing(steps[i]))
    ensures SpunOn(t0, c) in t.owner && t.owner[SpunOn(t0, c)] == c && !Spins(t, c)
    decreases TotalLoad(t0.cpus)
  {
    var step := SomebodyCanGoOn(g, t0, c);
    RunGoesOn(g, s, steps0, t0, step);
    SpinnerAfter(g, t0, step, c);
    var more, next := steps0 + [step], Next(g, t0, step);
    if step.cpu == c {
      steps, t := more, next;
    } else {
      StepKeepsInv(g, t0, step);
      FinishingLightensAll(g, t0, step);
      steps, t := SpinnerGets(g, s, more, next, c);
      FinishingFrom(steps0, more, steps);
    }
  }

  /** Progress: every run of a disciplined system in which a CPU spins can be continued, without a
      new acquire or interrupt, until that CPU owns its lock. */
  lemma EverySpinCanEnd(g: Config, s: State, steps0: seq<Step>, t0: State, c: nat)
    returns (steps: seq<Step>, t: State)
    requires g.Valid() && g.Disciplined() && Initial(s) && Run(g, s, steps0, t0) && Spins(t0, c)
    ensures Run(g, s, steps, t) && steps0 <= steps && (forall i :: |steps0| <= i < |steps| ==> Finishing(steps[i]))
    ensures SpunOn(t0, c) in t.owner && t.owner[SpunOn(t0, c)] == c && !Spins(t, c)
  {
    EveryRunKeepsInv(g, s, steps0, t0);
    steps, t := SpinnerGets(g, s, steps0, t0, c);
  }

  /** The lockdep table tells the truth: a CPU owns a lock exactly when its table holds the lock's
      entry and the spin is over, or it is inside the drop of that lock's guard. */
  lemma TableMatchesOwnership(g: Config, s: State, steps: seq<Step>, t: State, c: nat, l: Lock)
    requires g.Valid() && Initial(s) && Run(g, s, steps, t) && c < |t.cpus|
    ensures (l in t.owner && t.owner[l] == c) <==> Owns(t.cpus[c], l)
    ensures Increasing(t.cpus[c].held) && |t.cpus[c].held| <= 11
  {
    EveryRunKeepsInv(g, s, steps, t);
    TableRanked(g, t.cpus[c]);
  }

  // ---- Discipline is exactly what is needed ----

  lemma RunStarts(g: Config, s: State)
    ensures Run(g, s, [], s)
  {
  }

  /** An idle CPU, and one on its way from an acquire to an interrupted drop of `l`. */
  function Idle(): Cpu {
    Cpu([], [Frame(0, Active)])
  }

  function Trying(l: Lock, r: nat): Cpu {
    Cpu([HeldLock(l, r, false)], [Frame(0, Spinning(l))])
  }

  function Holding(l: Lock, r: nat): Cpu {
    Cpu([HeldLock(l, r, false)], [Frame(0, Active)])
  }

  function Letting(l: Lock): Cpu {
    Cpu([], [Frame(0, Dropping(l))])
  }

  function Interrupted(l: Lock): Cpu {
    Cpu([], [Frame(0, Dropping(l)), Frame(0, Active)])
  }

  function InHandler(l: Lock, h: Lock, r: nat): Cpu {
    Cpu([HeldLock(h, r, true)], [Frame(0, Dropping(l)), Frame(0, Spinning(h))])
  }

  /** One step of CPU `c` that leads to the CPU state `after`. */
  lemma Advance(g: Config, s0: State, steps: seq<Step>, s: State, step: Step, after: Cpu)
    returns (steps': seq<Step>, s': State)
    requires Run(g, s0, steps, s) && Enabled(g, s, step) && CpuAfter(g, s.cpus[step.cpu], step) == after
    ensures Run(g, s0, steps', s') && s'.cpus == s.cpus[step.cpu := after] && s'.owner == Next(g, s, step).owner
  {
    RunGoesOn(g, s0, steps, s, step);
    steps', s' := steps + [step], Next(g, s, step);
  }

  /** What the steps of the stories do to their own CPU. */
  lemma StorySteps(g: Config, c: nat, l: Lock, h: Lock)
    requires g.Valid() && l in g.locks && h in g.locks
    ensures Ready(g, Idle(), Take(c, l, false)) && CpuAfter(g, Idle(), Take(c, l, false)) == Trying(l, g.locks[l])
    ensures Ready(g, Trying(l, g.locks[l]), Grab(c))
    ensures CpuAfter(g, Trying(l, g.locks[l]), Grab(c)) == Holding(l, g.locks[l])
    ensures h in g.handler ==> Ready(g, Interrupted(l), Take(c, h, true))
    ensures h in g.handler ==> CpuAfter(g, Interrupted(l), Take(c, h, true)) == InHandler(l, h, g.locks[h])
  {
    assert CpuAfter(g, Idle(), Take(c, l, false)).frames == Trying(l, g.locks[l]).frames;
    assert CpuAfter(g, Trying(l, g.locks[l]), Grab(c)).frames == Holding(l, g.locks[l]).frames;
    if h in g.handler {
      assert CpuAfter(g, Interrupted(l), Take(c, h, true)).frames == InHandler(l, h, g.locks[h]).frames;
    }
  }

  lemma DropSteps(g: Config, c: nat, l: Lock)
    requires g.Valid() && l in g.unmasked
    ensures Ready(g, Holding(l, g.locks[l]), Pop(c, l)) && CpuAfter(g, Holding(l, g.locks[l]), Pop(c, l)) == Letting(l)
    ensures Ready(g, Letting(l), Interrupt(c)) && CpuAfter(g, Letting(l), Interrupt(c)) == Interrupted(l)
  {
    var held := Holding(l, g.locks[l]).held;
    assert held[0].addr == l;
    ReleasedSplits(held, l, 0);
  }

  /** A CPU that owns `h` and spins on `l`. */
  function Waiting(g: Config, h: Lock, l: Lock): Cpu
    requires h in g.locks && l in g.locks
  {
    Cpu([HeldLock(h, g.locks[h], false), HeldLock(l, g.locks[l], false)], [Frame(0, Spinning(l))])
  }

  lemma WaitStep(g: Config, c: nat, l: Lock, h: Lock)
    requires g.Valid() && l in g.locks && h in g.locks && g.locks[h] < g.locks[l]
    ensures Ready(g, Holding(h, g.locks[h]), Take(c, l, false))
    ensures CpuAfter(g, Holding(h, g.locks[h]), Take(c, l, false)) == Waiting(g, h, l)
  {
    var cpu := CpuAfter(g, Holding(h, g.locks[h]), Take(c, l, false));
    assert cpu.frames == Waiting(g, h, l).frames && cpu.held == Waiting(g, h, l).held;
  }

  lemma CrossedWaits(t: State, l: Lock, h: Lock)
    requires |t.cpus| == 2 && t.owner == map[l := 0, h := 1] && l != h
    requires t.cpus[0].Live() && t.cpus[0].Top().act == Spinning(h)
    requires t.cpus[1].Live() && t.cpus[1].Top().act == Spinning(l)
    ensures WaitChain(t, [0, 1, 0])
  {
    assert WaitsFor(t, 0, 1) && WaitsFor(t, 1, 0);
  }

  /** CPU `c` takes and grabs a free lock. */
  lemma TakesLock(g: Config, s0: State, steps: seq<Step>, s: State, c: nat, l: Lock)
    returns (steps': seq<Step>, s': State)
    requires g.Valid() && Run(g, s0, steps, s) && c < |s.cpus| && s.cpus[c] == Idle()
    requires l in g.locks && l !in s.owner
    ensures Run(g, s0, steps', s')
    ensures s' == State(s.cpus[c := Holding(l, g.locks[l])], s.owner[l := c])
  {
    StorySteps(g, c, l, l);
    steps', s' := Advance(g, s0, steps, s, Take(c, l, false), Trying(l, g.locks[l]));
    steps', s' := Advance(g, s0, steps', s', Grab(c), Holding(l, g.locks[l]));
  }

  /** CPU `c` pops its unmasked lock and is interrupted. */
  lemma DropBegins(g: Config, s0: State, steps: seq<Step>, s: State, c: nat, l: Lock)
    returns (steps': seq<Step>, s': State)
    requires g.Valid() && Run(g, s0, steps, s) && c < |s.cpus| && l in g.unmasked
    requires s.cpus[c] == Holding(l, g.locks[l])
    ensures Run(g, s0, steps', s') && s' == State(s.cpus[c := Interrupted(l)], s.owner)
  {
    DropSteps(g, c, l);
    steps', s' := Advance(g, s0, steps, s, Pop(c, l), Letting(l));
    steps', s' := Advance(g, s0, steps', s', Interrupt(c), Interrupted(l));
  }

  /** CPU `c` pops its unmasked lock, is interrupted, and its handler starts to take `h`. */
  lemma DropInterrupted(g: Config, s0: State, steps: seq<Step>, s: State, c: nat, l: Lock, h: Lock)
    returns (steps': seq<Step>, s': State)
    requires g.Valid() && Run(g, s0, steps, s) && c < |s.cpus| && l in g.unmasked && h in g.handler
    requires s.cpus[c] == Holding(l, g.locks[l])
    ensures Run(g, s0, steps', s')
    ensures s' == State(s.cpus[c := InHandler(l, h, g.locks[h])], s.owner)
  {
    StorySteps(g, c, l, h);
    steps', s' := DropBegins(g, s0, steps, s, c, l);
    steps', s' := Advance(g, s0, steps', s', Take(c, h, true), InHandler(l, h, g.locks[h]));
  }

  /** A reachable wait-for cycle on two CPUs. */
  ghost predicate CanDeadlock(g: Config) {
    exists s, steps, t, path :: DeadlocksIn(g, s, steps, t, path)
  }

  ghost predicate DeadlocksIn(g: Config, s: State, steps: seq<Step>, t: State, path: seq<nat>) {
    && Initial(s) && |s.cpus| >= 2 && Run(g, s, steps, t)
    && |path| >= 2 && WaitChain(t, path) && path[0] == path[|path| - 1]
  }

  function TwoIdle(): State {
    State([Idle(), Idle()], map[])
  }

  /** A handler that takes the very lock being dropped passes the rank test and then spins for
      ever on a lock its own CPU owns. */
  lemma SameLockDeadlocks(g: Config, l: Lock)
    requires g.Valid() && l in g.unmasked && l in g.handler
    ensures CanDeadlock(g)
  {
    var s := TwoIdle();
    RunStarts(g, s);
    var steps, t := TakesLock(g, s, [], s, 0, l);
    steps, t := DropInterrupted(g, s, steps, t, 0, l, l);
    assert WaitsFor(t, 0, 0);
    assert DeadlocksIn(g, s, steps, t, [0, 0]);
  }

  /** CPU 0 owns `l`, CPU 1 owns `h` and spins on `l`. */
  lemma OneWaits(g: Config, l: Lock, h: Lock) returns (steps: seq<Step>, t: State)
    requires g.Valid() && l in g.locks && h in g.locks && g.locks[h] < g.locks[l]
    ensures Run(g, TwoIdle(), steps, t)
    ensures t == State([Holding(l, g.locks[l]), Waiting(g, h, l)], map[l := 0, h := 1])
  {
    var s := TwoIdle();
    RunStarts(g, s);
    steps, t := TakesLock(g, s, [], s, 0, l);
    steps, t := TakesLock(g, s, steps, t, 1, h);
    assert t.cpus == [Holding(l, g.locks[l]), Holding(h, g.locks[h])];
    WaitStep(g, 1, l, h);
    steps, t := Advance(g, s, steps, t, Take(1, l, false), Waiting(g, h, l));
  }

  /** A handler that takes a lock of a lower rank: the owner of that lock waits for the lock
      being dropped, and no handler ever touches the dropped lock. */
  lemma LowerHandlerLockDeadlocks(g: Config, l: Lock, h: Lock)
    requires g.Valid() && l in g.unmasked && h in g.handler && g.locks[h] < g.locks[l]
    ensures CanDeadlock(g)
  {
    var steps, t := OneWaits(g, l, h);
    steps, t := DropInterrupted(g, TwoIdle(), steps, t, 0, l, h);
    CrossedWaits(t, l, h);
    assert DeadlocksIn(g, TwoIdle(), steps, t, [0, 1, 0]);
  }

  /** With at least two CPUs, some panic-free run ends in a wait-for cycle exactly when some handler
      takes a lock that is dropped with interrupts on, or a lock of a lower rank than such a lock. */
  lemma DeadlockFreeIffDisciplined(g: Config)
    requires g.Valid()
    ensures !CanDeadlock(g) <==> g.Disciplined()
  {
    if !g.Disciplined() {
      var l, h :| l in g.unmasked && h in g.handler && !(h != l && g.locks[l] <= g.locks[h]);
      if h == l {
        SameLockDeadlocks(g, l);
      } else {
        LowerHandlerLockDeadlocks(g, l, h);
      }
    } else if CanDeadlock(g) {
      var s, steps, t, path :| DeadlocksIn(g, s, steps, t, path);
      DeadlockFree(g, s, steps, t);
      assert false;
    }
  }
}
