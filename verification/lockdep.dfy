/** Per-CPU lock-order checker: the held-lock table and the two hooks that
    `SpinLock` calls, `OnAcquire` before the spin and `OnRelease` before the unlock. */
module Lockdep {
  import opened Common

  const MAX_HELD: nat := 16

  const TIMERS: nat := 10
  const REAL_TIMERS: nat := 11
  const WAIT_QUEUE: nat := 20
  const SCHEDULER: nat := 30
  const PROCESSES: nat := 40
  const EXITED_PROCESSES: nat := 41
  const VM: nat := 50
  const PROCESS_RESOURCE: nat := 60
  const PAGE_ALLOC: nat := 70
  const FILESYSTEM: nat := 80
  const NETWORK: nat := 90

  /** Every rank constant except UNRANKED (0). */
  const RANKS: set<nat> := {TIMERS, REAL_TIMERS, WAIT_QUEUE, SCHEDULER, PROCESSES, EXITED_PROCESSES,
                            VM, PROCESS_RESOURCE, PAGE_ALLOC, FILESYSTEM, NETWORK}

  datatype HeldLock = HeldLock(addr: nat, rank: nat, irqDisabled: bool)

  const EMPTY: HeldLock := HeldLock(0, 0, false)

  predicate Increasing(h: seq<HeldLock>) {
    forall i, j :: 0 <= i < j < |h| ==> h[i].rank < h[j].rank
  }

  predicate Ranked(h: seq<HeldLock>) {
    forall i :: 0 <= i < |h| ==> h[i].rank in RANKS
  }

  /** The ordering check: some held lock has a rank that is not below `rank`. */
  predicate Refuses(h: seq<HeldLock>, rank: nat) {
    exists i :: 0 <= i < |h| && h[i].rank > 0 && h[i].rank >= rank
  }

  /** Push, dropping the entry silently when the table is full. */
  function Pushed(h: seq<HeldLock>, e: HeldLock): seq<HeldLock> {
    if |h| < MAX_HELD then h + [e] else h
  }

  /** Release: the topmost entry with this address goes, the others keep their order. */
  function Released(h: seq<HeldLock>, addr: nat): seq<HeldLock> {
    if h == [] then []
    else
      var top := |h| - 1;
      if h[top].addr == addr then h[..top] else Released(h[..top], addr) + [h[top]]
  }

  lemma {:induction false} ReleasedSplits(h: seq<HeldLock>, addr: nat, k: nat)
    requires k < |h| && h[k].addr == addr
    requires forall i :: k < i < |h| ==> h[i].addr != addr
    ensures Released(h, addr) == h[..k] + h[k + 1..]
  {
    var top := |h| - 1;
    if k < top {
      ReleasedSplits(h[..top], addr, k);
      assert h[..top][..k] == h[..k];
      assert h[..top][k + 1..] + [h[top]] == h[k + 1..];
    } else {
      assert h[k + 1..] == [];
    }
  }

  lemma {:induction false} ReleaseOfNotHeld(h: seq<HeldLock>, addr: nat)
    requires forall i :: 0 <= i < |h| ==> h[i].addr != addr
    ensures Released(h, addr) == h
  {
    if h != [] {
      ReleaseOfNotHeld(h[..|h| - 1], addr);
    }
  }

  predicate Topmost(h: seq<HeldLock>, addr: nat, k: int) {
    0 <= k < |h| && h[k].addr == addr && forall i :: k < i < |h| ==> h[i].addr != addr
  }

  lemma FindTopmost(h: seq<HeldLock>, addr: nat) returns (k: int)
    requires exists i :: 0 <= i < |h| && h[i].addr == addr
    ensures Topmost(h, addr, k)
  {
    k := |h| - 1;
    while h[k].addr != addr
      invariant 0 <= k < |h| && forall i :: k < i < |h| ==> h[i].addr != addr
      decreases k
    {
      k := k - 1;
    }
  }

  /** Release removes exactly one entry, the topmost with that address, and nothing else;
      an address that is not held leaves the table alone. */
  lemma ReleaseRemovesExactlyOne(h: seq<HeldLock>, addr: nat)
    ensures (forall i :: 0 <= i < |h| ==> h[i].addr != addr) ==> Released(h, addr) == h
    ensures (exists i :: 0 <= i < |h| && h[i].addr == addr) ==>
              exists k :: Topmost(h, addr, k) && Released(h, addr) == h[..k] + h[k + 1..]
  {
    if exists i :: 0 <= i < |h| && h[i].addr == addr {
      var k := FindTopmost(h, addr);
      ReleasedSplits(h, addr, k);
    } else {
      ReleaseOfNotHeld(h, addr);
    }
  }

  /** The rank test accepts exactly the locks that rank above everything held. */
  lemma RefusesExactlyViolations(h: seq<HeldLock>, rank: nat)
    requires Increasing(h) && Ranked(h)
    ensures Refuses(h, rank) <==> h != [] && rank <= h[|h| - 1].rank
    ensures !Refuses(h, rank) <==> forall i :: 0 <= i < |h| ==> h[i].rank < rank
  {
    if h != [] && rank <= h[|h| - 1].rank {
      assert h[|h| - 1].rank in RANKS;
    }
    forall i | 0 <= i < |h|
      ensures h[i].rank > 0
    {
      assert h[i].rank in RANKS;
    }
  }

  lemma AcceptedPushKeepsOrder(h: seq<HeldLock>, e: HeldLock)
    requires Increasing(h) && Ranked(h) && e.rank in RANKS
    requires !Refuses(h, e.rank)
    ensures Increasing(h + [e]) && Ranked(h + [e])
  {
  }

  lemma ReleaseKeepsOrder(h: seq<HeldLock>, addr: nat)
    requires Increasing(h) && Ranked(h)
    ensures Increasing(Released(h, addr)) && Ranked(Released(h, addr))
  {
    ReleaseRemovesExactlyOne(h, addr);
  }

  ghost function RankSet(h: seq<HeldLock>): set<nat> {
    set i | 0 <= i < |h| :: h[i].rank
  }

  lemma RankSetPush(h: seq<HeldLock>, e: HeldLock)
    ensures RankSet(h + [e]) == RankSet(h) + {e.rank}
  {
    var g := h + [e];
    forall r | r in RankSet(h) + {e.rank}
      ensures r in RankSet(g)
    {
      if r == e.rank {
        assert g[|h|].rank == r;
      } else {
        var i :| 0 <= i < |h| && h[i].rank == r;
        assert g[i].rank == r;
      }
    }
  }

  lemma {:induction false} RankSetSize(h: seq<HeldLock>)
    requires Increasing(h)
    ensures |RankSet(h)| == |h|
  {
    if h != [] {
      var rest, last := h[..|h| - 1], h[|h| - 1];
      assert h == rest + [last];
      RankSetSize(rest);
      RankSetPush(rest, last);
      assert last.rank !in RankSet(rest);
    }
  }

  /** With strictly increasing ranks drawn from the eleven constants, depth never passes 11. */
  lemma DepthAtMostEleven(h: seq<HeldLock>)
    requires Increasing(h) && Ranked(h)
    ensures |h| <= 11 < MAX_HELD
  {
    RankSetSize(h);
    SubsetSize(RankSet(h), RANKS);
  }

  // Whole histories of one CPU's hooks.

  datatype Hook = Acquire(entry: HeldLock) | Release(addr: nat)

  datatype Table = Panicked | Running(held: seq<HeldLock>)

  function Step(t: Table, hook: Hook): Table {
    match t
    case Panicked => Panicked
    case Running(h) =>
      match hook
      case Acquire(e) => if Refuses(h, e.rank) then Panicked else Running(Pushed(h, e))
      case Release(a) => Running(Released(h, a))
  }

  function After(hooks: seq<Hook>): Table {
    if hooks == [] then Running([]) else Step(After(hooks[..|hooks| - 1]), hooks[|hooks| - 1])
  }

  /** In every panic-free history of acquires and out-of-order releases over ranked locks the
      table is strictly increasing, at most 11 deep, and its 16 slots never drop an entry. */
  lemma {:induction false} EveryHistoryStaysOrdered(hooks: seq<Hook>)
    requires forall i :: 0 <= i < |hooks| && hooks[i].Acquire? ==> hooks[i].entry.rank in RANKS
    requires After(hooks).Running?
    ensures Increasing(After(hooks).held) && Ranked(After(hooks).held) && |After(hooks).held| <= 11
    ensures hooks != [] && hooks[|hooks| - 1].Acquire? ==>
              var before := After(hooks[..|hooks| - 1]);
              before.Running? && After(hooks).held == before.held + [hooks[|hooks| - 1].entry]
  {
    if hooks != [] {
      var last := |hooks| - 1;
      EveryHistoryStaysOrdered(hooks[..last]);
      var h := After(hooks[..last]).held;
      DepthAtMostEleven(h);
      match hooks[last] {
        case Acquire(e) => AcceptedPushKeepsOrder(h, e);
        case Release(a) => ReleaseKeepsOrder(h, a);
      }
      DepthAtMostEleven(After(hooks).held);
    }
  }

  class CpuLockState {
    const held: array<HeldLock>
    var depth: nat
    var checking: bool

    ghost predicate Valid()
      reads this, held
    {
      && held.Length == MAX_HELD
      && depth <= MAX_HELD
      && forall i :: depth <= i < MAX_HELD ==> held[i] == EMPTY
    }

    ghost function Held(): seq<HeldLock>
      requires Valid()
      reads this, held
    {
      held[..depth]
    }

    constructor ()
      ensures Valid() && fresh(held) && Held() == [] && !checking
    {
      held := new HeldLock[MAX_HELD](_ => EMPTY);
      depth, checking := 0, false;
    }

    /** `panicked` stands for the ordering-violation panic. */
    method OnAcquire(enabled: bool, addr: nat, rank: nat, irqDisabled: bool) returns (panicked: bool)
      requires Valid()
      modifies this, held
      ensures Valid() && checking == old(checking)
      ensures panicked <==> enabled && rank != 0 && !old(checking) && Refuses(old(Held()), rank)
      ensures Held() == if !enabled || rank == 0 || old(checking) || panicked then old(Held())
                        else Pushed(old(Held()), HeldLock(addr, rank, irqDisabled))
    {
      if !enabled || rank == 0 || checking {
        return false;
      }
      checking := true;
      for i := 0 to depth
        invariant checking && depth == old(depth) && held[..] == old(held[..])
        invariant forall k :: 0 <= k < i ==> !(held[k].rank > 0 && held[k].rank >= rank)
      {
        if held[i].rank > 0 && held[i].rank >= rank {
          checking := false;
          assert old(Held())[i].rank >= rank;
          return true;
        }
      }
      if depth < MAX_HELD {
        held[depth] := HeldLock(addr, rank, irqDisabled);
        depth := depth + 1;
      }
      checking := false;
      panicked := false;
    }

    method OnRelease(enabled: bool, addr: nat)
      requires Valid()
      modifies this, held
      ensures Valid() && checking == old(checking)
      ensures Held() == if enabled && !checking then Released(old(Held()), addr) else old(Held())
    {
      if !enabled || checking {
        return;
      }
      ghost var before := Held();
      var i := depth;
      while i > 0
        invariant 0 <= i <= depth && depth == old(depth) && checking == old(checking)
        invariant held[..] == old(held[..])
        invariant forall k :: i <= k < depth ==> held[k].addr != addr
      {
        i := i - 1;
        if held[i].addr == addr {
          ReleasedSplits(before, addr, i);
          ShiftDown(i);
          return;
        }
      }
      ReleaseRemovesExactlyOne(before, addr);
    }

    /** Close the gap at `i` and clear the vacated top slot. */
    method ShiftDown(i: nat)
      requires Valid() && i < depth
      modifies this`depth, held
      ensures Valid()
      ensures Held() == old(Held())[..i] + old(Held())[i + 1..]
    {
      ghost var before := Held();
      for j := i to depth - 1
        invariant depth == old(depth)
        invariant held[..i] == before[..i]
        invariant forall k :: i <= k < j ==> held[k] == before[k + 1]
        invariant forall k :: j <= k < depth ==> held[k] == before[k]
        invariant forall k :: depth <= k < MAX_HELD ==> held[k] == EMPTY
      {
        held[j] := held[j + 1];
      }
      held[depth - 1] := EMPTY;
      depth := depth - 1;
    }
  }
}
