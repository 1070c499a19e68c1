/** Every interleaving of sleepers, timer passes, late resumes, signals and exits. */
module SleepProtocol {
  import opened Timers

  /** One call of `_sleep_ms`; calls are numbered in push order. */
  datatype Ticket = Ticket(proc: nat, id: nat)

  datatype Place = Listed | Pending(cpu: nat, pass: nat) | Done(pass: nat)

  /** A call, the pass count when it was pushed, where its entry is now, and the same process's
      entries that were still around when it was pushed. */
  datatype Sleep = Sleep(proc: nat, ms: nat, pass: nat, place: Place, leftovers: set<nat>)

  datatype ProcState = Runnable | Sleeping(id: nat) | Parked | Exited

  /** `mid` maps a process between its push and its `set_state` to its call; `handlers` maps a CPU
      inside `handle_timer_irq` to the resumes it still has to do. */
  datatype State = State(timers: seq<Timer<Ticket>>, mid: map<nat, nat>, procs: map<nat, ProcState>,
                         handlers: map<nat, seq<Ticket>>, passes: nat, sleeps: seq<Sleep>)

  datatype Step =
    | Push(proc: nat, ms: nat)
    | Block(proc: nat)
    | Collect(cpu: nat)
    | Resume(cpu: nat)
    | Finish(cpu: nat)
    | Signal(proc: nat)
    | Park(proc: nat)
    | Exit(proc: nat)

  /** With `locked` the TIMERS lock is held from the push to the `set_state`; without it the lock
      is dropped in between. */
  predicate Enabled(locked: bool, st: State, step: Step) {
    match step
    case Push(p, _) => p in st.procs && st.procs[p] == Runnable && p !in st.mid && (locked ==> st.mid == map[])
    case Block(p) => p in st.mid && p in st.procs
    case Collect(c) => c !in st.handlers && (locked ==> st.mid == map[])
    case Resume(c) => c in st.handlers && st.handlers[c] != [] && st.handlers[c][0].proc in st.procs
                      && st.handlers[c][0].id < |st.sleeps|
    case Finish(c) => c in st.handlers && st.handlers[c] == []
    case Signal(p) => p in st.procs
    case Park(p) => p in st.procs && p !in st.mid && st.procs[p] == Runnable
    case Exit(p) => p in st.procs
  }

  /** `resume` and `resume_boosted`: an exited process stays exited. */
  function Resumed(s: ProcState): ProcState {
    if s == Exited then Exited else Runnable
  }

  predicate Outstanding(s: Sleep, p: nat) {
    s.proc == p && !s.place.Done?
  }

  ghost function OutstandingIds(sleeps: seq<Sleep>, p: nat): set<nat> {
    set id | 0 <= id < |sleeps| && Outstanding(sleeps[id], p)
  }

  function Moved(s: Sleep, id: nat, expired: seq<Ticket>, cpu: nat, pass: nat): Sleep {
    if Ticket(s.proc, id) in expired then s.(place := Pending(cpu, pass)) else s
  }

  function AfterCollect(sleeps: seq<Sleep>, expired: seq<Ticket>, cpu: nat, pass: nat): seq<Sleep> {
    seq(|sleeps|, id requires 0 <= id < |sleeps| => Moved(sleeps[id], id, expired, cpu, pass))
  }

  ghost function Next(locked: bool, st: State, step: Step): State
    requires Enabled(locked, st, step)
  {
    match step
    case Push(p, ms) =>
      st.(timers := st.timers + [Timer(Ticks(ms), Ticket(p, |st.sleeps|))],
          mid := st.mid[p := |st.sleeps|],
          sleeps := st.sleeps + [Sleep(p, ms, st.passes, Listed, OutstandingIds(st.sleeps, p))])
    case Block(p) => st.(procs := st.procs[p := Sleeping(st.mid[p])], mid := st.mid - {p})
    case Collect(c) =>
      var expired := Expired(Decremented(st.timers));
      st.(timers := Kept(Decremented(st.timers)), passes := st.passes + 1, handlers := st.handlers[c := expired],
          sleeps := AfterCollect(st.sleeps, expired, c, st.passes + 1))
    case Resume(c) =>
      var t := st.handlers[c][0];
      var s := st.sleeps[t.id];
      st.(procs := st.procs[t.proc := Resumed(st.procs[t.proc])],
          handlers := st.handlers[c := st.handlers[c][1..]],
          sleeps := st.sleeps[t.id := s.(place := Done(if s.place.Pending? then s.place.pass else 0))])
    case Finish(c) => st.(handlers := st.handlers - {c})
    case Signal(p) => st.(procs := st.procs[p := Resumed(st.procs[p])])
    case Park(p) => st.(procs := st.procs[p := Parked])
    case Exit(p) => st.(procs := st.procs[p := Exited])
  }

  ghost predicate IsRun(locked: bool, run: seq<State>, steps: seq<Step>) {
    && |run| == |steps| + 1
    && forall i :: 0 <= i < |steps| ==> Enabled(locked, run[i], steps[i]) && run[i + 1] == Next(locked, run[i], steps[i])
  }

  predicate Init(st: State) {
    st.timers == [] && st.mid == map[] && st.handlers == map[] && st.sleeps == [] && forall p <- st.procs :: st.procs[p] == Runnable
  }

  // ---- The invariant ----

  /** The pass that collects a call: the max(1, ticks)-th after its push. */
  function Due(s: Sleep): nat {
    s.pass + if Ticks(s.ms) == 0 then 1 else Ticks(s.ms)
  }

  /** The counter a listed entry shows. */
  function Left(s: Sleep, passes: nat): nat {
    if Ticks(s.ms) == 0 || passes >= Due(s) then 0 else Due(s) - passes
  }

  predicate Rising(ts: seq<Timer<Ticket>>) {
    forall i, j :: 0 <= i < j < |ts| ==> ts[i].process.id < ts[j].process.id
  }

  predicate TicketsRise(ts: seq<Ticket>) {
    forall i, j :: 0 <= i < j < |ts| ==> ts[i].id < ts[j].id
  }

  predicate IsTicket(sleeps: seq<Sleep>, t: Ticket) {
    t.id < |sleeps| && sleeps[t.id].proc == t.proc
  }

  predicate TimerOk(st: State, t: Timer<Ticket>) {
    && IsTicket(st.sleeps, t.process)
    && var s := st.sleeps[t.process.id];
       s.place == Listed && s.pass <= st.passes < Due(s) && t.current == Left(s, st.passes)
  }

  predicate PendingOk(sleeps: seq<Sleep>, cpu: nat, t: Ticket) {
    IsTicket(sleeps, t) && sleeps[t.id].place == Pending(cpu, Due(sleeps[t.id]))
  }

  /** Every call is where its place says. */
  predicate PlaceOk(st: State, id: nat)
    requires id < |st.sleeps|
  {
    var s := st.sleeps[id];
    && s.proc in st.procs
    && match s.place
       case Listed => s.pass <= st.passes < Due(s) && Timer(Left(s, st.passes), Ticket(s.proc, id)) in st.timers
       case Pending(c, pass) => pass == Due(s) <= st.passes && c in st.handlers && Ticket(s.proc, id) in st.handlers[c]
       case Done(pass) => pass == Due(s) <= st.passes
  }

  predicate HandlerOk(sleeps: seq<Sleep>, c: nat, hs: seq<Ticket>) {
    TicketsRise(hs) && forall t <- hs :: PendingOk(sleeps, c, t)
  }

  /** The call a process is in: pushed, or blocked by it. */
  predicate InCall(st: State, p: nat, id: nat) {
    || (p in st.mid && st.mid[p] == id)
    || (p in st.procs && st.procs[p] == Sleeping(id))
  }

  ghost predicate CallOk(st: State, p: nat, id: nat) {
    && id < |st.sleeps| && st.sleeps[id].proc == p && !st.sleeps[id].place.Done?
    && (p in st.mid ==> st.sleeps[id].place == Listed)
    && OutstandingIds(st.sleeps, p) <= st.sleeps[id].leftovers + {id}
  }

  ghost predicate Inv(st: State) {
    && Rising(st.timers)
    && (forall t <- st.timers :: TimerOk(st, t))
    && (forall id :: 0 <= id < |st.sleeps| ==> PlaceOk(st, id))
    && (forall c <- st.handlers :: HandlerOk(st.sleeps, c, st.handlers[c]))
    && (forall p, id :: InCall(st, p, id) ==> CallOk(st, p, id))
    && (forall p <- st.mid :: p in st.procs && (st.procs[p] == Runnable || st.procs[p] == Exited))
  }

  // ---- Every step keeps it ----

  lemma PushKeepsInv(st: State, p: nat, ms: nat)
    requires Inv(st) && Enabled(true, st, Push(p, ms))
    ensures Inv(Next(true, st, Push(p, ms)))
  {
    var n := |st.sleeps|;
    var st' := Next(true, st, Push(p, ms));
    assert st'.sleeps[..n] == st.sleeps;
    forall t | t in st'.timers
      ensures TimerOk(st', t)
    {
      if t in st.timers {
        assert TimerOk(st, t);
      }
    }
    assert Rising(st'.timers) by {
      forall i | 0 <= i < |st.timers|
        ensures st.timers[i].process.id < n
      {
        assert TimerOk(st, st.timers[i]);
      }
    }
    forall id | 0 <= id < |st'.sleeps|
      ensures PlaceOk(st', id)
    {
      if id < n {
        assert PlaceOk(st, id);
      } else {
        assert st'.timers[|st.timers|] in st'.timers;
      }
    }
    forall c | c in st'.handlers
      ensures HandlerOk(st'.sleeps, c, st'.handlers[c])
    {
      assert HandlerOk(st.sleeps, c, st.handlers[c]);
    }
    forall q, id | InCall(st', q, id)
      ensures CallOk(st', q, id)
    {
      if q != p {
        assert InCall(st, q, id) && CallOk(st, q, id);
        assert OutstandingIds(st'.sleeps, q) == OutstandingIds(st.sleeps, q);
      }
    }
  }

  lemma {:induction false} KeptRises(ts: seq<Timer<Ticket>>)
    requires Rising(ts)
    ensures Rising(Kept(ts)) && TicketsRise(Expired(ts))
  {
    if ts != [] {
      var rest := ts[..|ts| - 1];
      KeptRises(rest);
      forall t: Timer<Ticket> | t in Kept(rest)
        ensures t.process.id < ts[|ts| - 1].process.id
      {
        KeptMembers(rest, t);
      }
      forall q: Ticket | q in Expired(rest)
        ensures q.id < ts[|ts| - 1].process.id
      {
        ExpiredMembers(rest, q);
      }
    }
  }

  /** One call across a pass. */
  lemma CollectMovesCall(st: State, c: nat, id: nat)
    requires Inv(st) && Enabled(true, st, Collect(c)) && id < |st.sleeps|
    ensures PlaceOk(Next(true, st, Collect(c)), id)
    ensures var s' := Next(true, st, Collect(c)).sleeps[id];
            s' == if st.sleeps[id].place == Listed && Due(st.sleeps[id]) == st.passes + 1
                  then st.sleeps[id].(place := Pending(c, st.passes + 1)) else st.sleeps[id]
  {
    var s := st.sleeps[id];
    var q := Ticket(s.proc, id);
    assert PlaceOk(st, id);
    PassExpires(st.timers, q);
    if q in Expired(Decremented(st.timers)) {
      assert TimerOk(st, Timer(0, q)) || TimerOk(st, Timer(1, q));
    }
    if s.place == Listed && Due(s) != st.passes + 1 {
      PassKeeps(st.timers, Timer(Left(s, st.passes + 1), q));
    }
  }

  lemma CollectKeepsInv(st: State, c: nat)
    requires Inv(st) && Enabled(true, st, Collect(c))
    ensures Inv(Next(true, st, Collect(c)))
  {
    var st' := Next(true, st, Collect(c));
    KeptRises(Decremented(st.timers));
    forall t | t in st'.timers
      ensures TimerOk(st', t)
    {
      PassKeeps(st.timers, t);
      assert TimerOk(st, Timer(t.current + 1, t.process));
      CollectMovesCall(st, c, t.process.id);
    }
    forall id | 0 <= id < |st'.sleeps|
      ensures PlaceOk(st', id)
    {
      CollectMovesCall(st, c, id);
    }
    forall d | d in st'.handlers
      ensures HandlerOk(st'.sleeps, d, st'.handlers[d])
    {
      CollectKeepsHandler(st, c, d);
    }
    forall p, id | InCall(st', p, id)
      ensures CallOk(st', p, id)
    {
      assert InCall(st, p, id) && CallOk(st, p, id);
      CollectMovesCall(st, c, id);
      CollectKeepsOutstanding(st, c, p);
    }
  }

  lemma CollectKeepsHandler(st: State, c: nat, d: nat)
    requires Inv(st) && Enabled(true, st, Collect(c)) && d in Next(true, st, Collect(c)).handlers
    ensures var st' := Next(true, st, Collect(c)); HandlerOk(st'.sleeps, d, st'.handlers[d])
  {
    var st' := Next(true, st, Collect(c));
    KeptRises(Decremented(st.timers));
    assert d != c ==> HandlerOk(st.sleeps, d, st.handlers[d]);
    forall t | t in st'.handlers[d]
      ensures PendingOk(st'.sleeps, d, t)
    {
      if d == c {
        PassExpires(st.timers, t);
        assert TimerOk(st, Timer(0, t)) || TimerOk(st, Timer(1, t));
      } else {
        assert PendingOk(st.sleeps, d, t);
      }
      CollectMovesCall(st, c, t.id);
    }
  }

  lemma CollectKeepsOutstanding(st: State, c: nat, p: nat)
    requires Inv(st) && Enabled(true, st, Collect(c))
    ensures OutstandingIds(Next(true, st, Collect(c)).sleeps, p) == OutstandingIds(st.sleeps, p)
  {
    var st' := Next(true, st, Collect(c));
    forall id | 0 <= id < |st.sleeps|
      ensures Outstanding(st'.sleeps[id], p) == Outstanding(st.sleeps[id], p)
    {
      CollectMovesCall(st, c, id);
    }
  }

  lemma ResumeKeepsInv(st: State, c: nat)
    requires Inv(st) && Enabled(true, st, Resume(c))
    ensures Inv(Next(true, st, Resume(c)))
  {
    var st' := Next(true, st, Resume(c));
    var t := st.handlers[c][0];
    assert HandlerOk(st.sleeps, c, st.handlers[c]);
    assert PendingOk(st.sleeps, c, t);
    forall u | u in st'.timers
      ensures TimerOk(st', u)
    {
      assert TimerOk(st, u);
    }
    forall id | 0 <= id < |st'.sleeps|
      ensures PlaceOk(st', id)
    {
      assert PlaceOk(st, id);
      assert st.handlers[c] == [t] + st.handlers[c][1..];
    }
    forall d | d in st'.handlers
      ensures HandlerOk(st'.sleeps, d, st'.handlers[d])
    {
      assert HandlerOk(st.sleeps, d, st.handlers[d]);
      forall u | u in st'.handlers[d]
        ensures PendingOk(st'.sleeps, d, u)
      {
        assert PendingOk(st.sleeps, d, u);
      }
    }
    forall p, id | InCall(st', p, id)
      ensures CallOk(st', p, id)
    {
      assert InCall(st, p, id) && CallOk(st, p, id);
      assert OutstandingIds(st'.sleeps, p) <= OutstandingIds(st.sleeps, p);
    }
  }

  lemma OtherStepsKeepInv(st: State, step: Step)
    requires Inv(st) && Enabled(true, st, step)
    requires step.Block? || step.Finish? || step.Signal? || step.Park? || step.Exit?
    ensures Inv(Next(true, st, step))
  {
    var st' := Next(true, st, step);
    forall t | t in st'.timers
      ensures TimerOk(st', t)
    {
      assert TimerOk(st, t);
    }
    forall id | 0 <= id < |st'.sleeps|
      ensures PlaceOk(st', id)
    {
      assert PlaceOk(st, id);
    }
    forall p, id | InCall(st', p, id)
      ensures CallOk(st', p, id)
    {
      assert InCall(st, p, id) && CallOk(st, p, id);
    }
  }

  lemma StepKeepsInv(st: State, step: Step)
    requires Inv(st) && Enabled(true, st, step)
    ensures Inv(Next(true, st, step))
  {
    match step {
      case Push(p, ms) => PushKeepsInv(st, p, ms);
      case Collect(c) => CollectKeepsInv(st, c);
      case Resume(c) => ResumeKeepsInv(st, c);
      case _ => OtherStepsKeepInv(st, step);
    }
  }

  lemma {:induction false} EveryRunKeepsInv(run: seq<State>, steps: seq<Step>)
    requires IsRun(true, run, steps) && Init(run[0])
    ensures Inv(run[|steps|])
  {
    if steps != [] {
      var k := |steps| - 1;
      EveryRunKeepsInv(run[..k + 1], steps[..k]);
      StepKeepsInv(run[k], steps[k]);
    }
  }

  // ---- No lost sleep ----

  /** A process blocked by a call still has that call's entry, with exactly the remaining passes
      on it, or a handler in flight is about to resume it. */
  lemma NoLostSleep(run: seq<State>, steps: seq<Step>, p: nat, id: nat)
    requires IsRun(true, run, steps) && Init(run[0])
    requires p in run[|steps|].procs && run[|steps|].procs[p] == Sleeping(id)
    ensures var st := run[|steps|];
            && id < |st.sleeps| && st.sleeps[id].proc == p
            && (|| Timer(Left(st.sleeps[id], st.passes), Ticket(p, id)) in st.timers
                || exists c :: c in st.handlers && Ticket(p, id) in st.handlers[c])
  {
    EveryRunKeepsInv(run, steps);
    var st := run[|steps|];
    assert InCall(st, p, id) && CallOk(st, p, id);
    assert PlaceOk(st, id);
  }

  /** A call is on the list until its due pass, and that very pass takes it off. */
  lemma CollectedOnTheDuePass(run: seq<State>, steps: seq<Step>, id: nat)
    requires IsRun(true, run, steps) && Init(run[0]) && id < |run[|steps|].sleeps|
    ensures var st := run[|steps|];
            var s := st.sleeps[id];
            && (Timer(Left(s, st.passes), Ticket(s.proc, id)) in st.timers <==> st.passes < Due(s))
            && (s.place == Listed <==> st.passes < Due(s))
            && (s.place != Listed ==> s.place.pass == Due(s))
  {
    EveryRunKeepsInv(run, steps);
    var st := run[|steps|];
    var s := st.sleeps[id];
    assert PlaceOk(st, id);
    if Timer(Left(s, st.passes), Ticket(s.proc, id)) in st.timers {
      assert TimerOk(st, Timer(Left(s, st.passes), Ticket(s.proc, id)));
    }
  }

  predicate ResumesCall(st: State, step: Step, id: nat) {
    step.Resume? && step.cpu in st.handlers && st.handlers[step.cpu] != [] && st.handlers[step.cpu][0].id == id
  }

  /** How often a run resumes a call. */
  function Resumes(run: seq<State>, steps: seq<Step>, id: nat): nat
    requires |run| == |steps| + 1
    decreases |steps|
  {
    if steps == [] then 0
    else
      var k := |steps| - 1;
      Resumes(run[..k + 1], steps[..k], id) + if ResumesCall(run[k], steps[k], id) then 1 else 0
  }

  lemma StepAndPlace(st: State, step: Step, id: nat)
    requires Inv(st) && Enabled(true, st, step)
    ensures var st' := Next(true, st, step);
            var was := id < |st.sleeps| && st.sleeps[id].place.Done?;
            var now := id < |st'.sleeps| && st'.sleeps[id].place.Done?;
            if ResumesCall(st, step, id) then !was && now else was == now
  {
    match step {
      case Resume(c) =>
        assert HandlerOk(st.sleeps, c, st.handlers[c]);
        assert PendingOk(st.sleeps, c, st.handlers[c][0]);
      case Collect(c) =>
        if id < |st.sleeps| {
          CollectMovesCall(st, c, id);
        }
      case _ =>
    }
  }

  /** No entry is resumed twice: the resume is what marks a call done. */
  lemma {:induction false} AtMostOneResume(run: seq<State>, steps: seq<Step>, id: nat)
    requires IsRun(true, run, steps) && Init(run[0])
    ensures var st := run[|steps|];
            Resumes(run, steps, id) == if id < |st.sleeps| && st.sleeps[id].place.Done? then 1 else 0
  {
    if steps != [] {
      var k := |steps| - 1;
      AtMostOneResume(run[..k + 1], steps[..k], id);
      EveryRunKeepsInv(run[..k + 1], steps[..k]);
      StepAndPlace(run[k], steps[k], id);
    }
  }

  lemma DoneAfterDue(st: State, id: nat)
    requires Inv(st) && id < |st.sleeps| && st.passes >= Due(st.sleeps[id]) && st.handlers == map[]
    ensures st.sleeps[id].place.Done? && forall p <- st.procs :: st.procs[p] != Sleeping(id)
  {
    assert PlaceOk(st, id);
    forall p | p in st.procs && st.procs[p] == Sleeping(id)
      ensures false
    {
      assert InCall(st, p, id);
    }
  }

  /** Once the due pass is over and no handler is in flight, a call has been resumed exactly once
      and no process is blocked by it. */
  lemma ExactlyOneResume(run: seq<State>, steps: seq<Step>, id: nat)
    requires IsRun(true, run, steps) && Init(run[0])
    requires var st := run[|steps|];
             id < |st.sleeps| && st.passes >= Due(st.sleeps[id]) && st.handlers == map[]
    ensures Resumes(run, steps, id) == 1
    ensures forall p <- run[|steps|].procs :: run[|steps|].procs[p] != Sleeping(id)
  {
    EveryRunKeepsInv(run, steps);
    AtMostOneResume(run, steps, id);
    DoneAfterDue(run[|steps|], id);
  }

  // ---- How a process changes state ----

  /** The process a step is about, if it changes a process state at all. */
  predicate Wakes(st: State, step: Step, p: nat) {
    || step == Signal(p)
    || (step.Resume? && step.cpu in st.handlers && st.handlers[step.cpu] != [] && st.handlers[step.cpu][0].proc == p)
  }

  /** Only its own steps, a signal, a resume and an exit change a process's state; a signal or a
      resume makes any process runnable except an exited one. */
  lemma StateChanges(locked: bool, st: State, step: Step, p: nat)
    requires Enabled(locked, st, step) && p in st.procs
    ensures var was, st' := st.procs[p], Next(locked, st, step);
            && p in st'.procs
            && (Wakes(st, step, p) && was != Exited ==> st'.procs[p] == Runnable)
            && (was == Exited && step != Block(p) ==> st'.procs[p] == Exited)
            && (step == Block(p) ==> st'.procs[p] == Sleeping(st.mid[p]))
            && (step == Park(p) ==> was == Runnable && st'.procs[p] == Parked)
            && (step == Exit(p) ==> st'.procs[p] == Exited)
            && (!Wakes(st, step, p) && step != Block(p) && step != Park(p) && step != Exit(p) ==> st'.procs[p] == was)
  {
  }

  /** A late resume never brings an exited process back: once exited and not on its way into a
      sleep, a process is exited for ever. */
  lemma {:induction false} ExitedForEver(locked: bool, run: seq<State>, steps: seq<Step>, i: nat, j: nat, p: nat)
    requires IsRun(locked, run, steps) && i <= j < |run|
    requires p in run[i].procs && run[i].procs[p] == Exited && p !in run[i].mid
    ensures p in run[j].procs && run[j].procs[p] == Exited && p !in run[j].mid
    decreases j
  {
    if i < j {
      ExitedForEver(locked, run, steps, i, j - 1, p);
      StateChanges(locked, run[j - 1], steps[j - 1], p);
      NoNewMid(locked, run[j - 1], steps[j - 1], p);
    }
  }

  lemma NoNewMid(locked: bool, st: State, step: Step, p: nat)
    requires Enabled(locked, st, step) && p in st.procs && st.procs[p] == Exited && p !in st.mid
    ensures p !in Next(locked, st, step).mid && step != Block(p)
  {
  }

  /** A sleep ends only in a runnable process, by a signal or a timer resume, or in an exit. */
  lemma SleepEnds(locked: bool, run: seq<State>, steps: seq<Step>, i: nat, p: nat, id: nat)
    requires IsRun(locked, run, steps) && i < |steps| && p in run[i].procs && run[i].procs[p] == Sleeping(id)
    requires p !in run[i].mid
    ensures p in run[i + 1].procs
    ensures run[i + 1].procs[p] == if steps[i] == Exit(p) then Exited
                                   else if Wakes(run[i], steps[i], p) then Runnable else Sleeping(id)
  {
    StateChanges(locked, run[i], steps[i], p);
  }

  // ---- Without the lock a sleep can be lost ----

  /** No entry and no pending resume is left for a blocked process. */
  predicate Lost(st: State, p: nat, id: nat) {
    && p in st.procs && st.procs[p] == Sleeping(id) && p !in st.mid
    && (forall t <- st.timers :: t.process.proc != p)
    && (forall c <- st.handlers :: forall t <- st.handlers[c] :: t.proc != p)
  }

  lemma OneTickPass()
    ensures var ts := [Timer(1, Ticket(0, 0))];
            Kept(Decremented(ts)) == [] && Expired(Decremented(ts)) == [Ticket(0, 0)]
  {
    assert Decremented([Timer(1, Ticket(0, 0))]) == [Timer(0, Ticket(0, 0))];
  }

  /** Pushed, and collected and resumed before the state change. */
  lemma ResumedTooSoon() returns (run: seq<State>, steps: seq<Step>)
    ensures IsRun(false, run, steps) && Init(run[0]) && |steps| == 3
    ensures var st := run[3];
            && st.timers == [] && st.mid == map[0 := 0] && st.handlers == map[0 := []] && st.procs == map[0 := Runnable]
  {
    var s0 := State([], map[], map[0 := Runnable], map[], 0, []);
    steps := [Push(0, 10), Collect(0), Resume(0)];
    var s1 := Next(false, s0, steps[0]);
    assert Ticks(10) == 1;
    assert s1.timers == [Timer(1, Ticket(0, 0))];
    OneTickPass();
    var s2 := Next(false, s1, steps[1]);
    var s3 := Next(false, s2, steps[2]);
    run := [s0, s1, s2, s3];
  }

  lemma LosingRun() returns (run: seq<State>, steps: seq<Step>)
    ensures IsRun(false, run, steps) && Init(run[0]) && Lost(run[|steps|], 0, 0)
  {
    run, steps := ResumedTooSoon();
    var s4 := Next(false, run[3], Finish(0));
    var s5 := Next(false, s4, Block(0));
    var more, all := run + [s4, s5], steps + [Finish(0), Block(0)];
    forall i | 0 <= i < |all|
      ensures Enabled(false, more[i], all[i]) && more[i + 1] == Next(false, more[i], all[i])
    {
      if i < 3 {
        assert more[i] == run[i] && more[i + 1] == run[i + 1] && all[i] == steps[i];
      }
    }
    run, steps := more, all;
  }

  lemma LostStep(locked: bool, st: State, step: Step, p: nat, id: nat)
    requires Lost(st, p, id) && Enabled(locked, st, step) && step != Signal(p) && step != Exit(p)
    ensures Lost(Next(locked, st, step), p, id)
  {
    if step.Collect? {
      var st' := Next(locked, st, step);
      forall t | t in st'.timers
        ensures t.process.proc != p
      {
        PassKeeps(st.timers, t);
      }
      forall t | t in Expired(Decremented(st.timers))
        ensures t.proc != p
      {
        PassExpires(st.timers, t);
      }
    }
  }

  /** A lost process stays blocked through every continuation that does not signal or kill it. */
  lemma {:induction false} LostForever(locked: bool, run: seq<State>, steps: seq<Step>, p: nat, id: nat)
    requires IsRun(locked, run, steps) && Lost(run[0], p, id)
    requires forall i :: 0 <= i < |steps| ==> steps[i] != Signal(p) && steps[i] != Exit(p)
    ensures Lost(run[|steps|], p, id)
  {
    if steps != [] {
      var k := |steps| - 1;
      LostForever(locked, run[..k + 1], steps[..k], p, id);
      LostStep(locked, run[k], steps[k], p, id);
    }
  }

  // ---- Entries left behind by a signal can end a later sleep early ----

  /** Some handler's next resume would end call `id` before its due pass. */
  ghost predicate EndsEarly(st: State, id: nat) {
    exists c :: EndsEarlyAt(st, c, id)
  }

  predicate EndsEarlyAt(st: State, c: nat, id: nat) {
    && Enabled(true, st, Resume(c)) && id < |st.sleeps|
    && var t := st.handlers[c][0];
       t.proc == st.sleeps[id].proc && st.procs[t.proc] == Sleeping(id) && st.passes < Due(st.sleeps[id])
  }

  /** The same calls, in order, perhaps at other places, perhaps with later ones. */
  predicate CallsExtend(a: seq<Sleep>, b: seq<Sleep>) {
    |a| <= |b| && forall i :: 0 <= i < |a| ==> b[i] == a[i].(place := b[i].place)
  }

  ghost predicate Reaches(st: State, st': State) {
    exists run, steps :: IsRun(true, run, steps) && run[0] == st && run[|steps|] == st'
  }

  lemma ReachesItself(st: State)
    ensures Reaches(st, st)
  {
    assert IsRun(true, [st], []);
  }

  lemma ReachesNext(st: State, st': State, step: Step)
    requires Reaches(st, st') && Enabled(true, st', step)
    ensures Reaches(st, Next(true, st', step))
  {
    var run, steps :| IsRun(true, run, steps) && run[0] == st && run[|steps|] == st';
    var more := run + [Next(true, st', step)];
    assert IsRun(true, more, steps + [step]);
    assert more[0] == st && more[|steps + [step]|] == Next(true, st', step);
  }

  lemma StepExtendsCalls(st: State, step: Step)
    requires Enabled(true, st, step)
    ensures CallsExtend(st.sleeps, Next(true, st, step).sleeps)
  {
  }

  lemma {:induction false} RunExtendsCalls(run: seq<State>, steps: seq<Step>)
    requires IsRun(true, run, steps) && Inv(run[0])
    ensures CallsExtend(run[0].sleeps, run[|steps|].sleeps) && Inv(run[|steps|])
  {
    if steps != [] {
      var k := |steps| - 1;
      RunExtendsCalls(run[..k + 1], steps[..k]);
      StepExtendsCalls(run[k], steps[k]);
      StepKeepsInv(run[k], steps[k]);
    }
  }

  lemma ReachesExtendsCalls(st: State, st': State)
    requires Inv(st) && Reaches(st, st')
    ensures CallsExtend(st.sleeps, st'.sleeps) && Inv(st')
  {
    var run, steps :| IsRun(true, run, steps) && run[0] == st && run[|steps|] == st';
    RunExtendsCalls(run, steps);
  }

  /** A later state of the same pass in which nothing happened to `p`. */
  predicate SameFor(st: State, st': State, p: nat) {
    && p in st.procs && p in st'.procs && st'.procs[p] == st.procs[p] && st'.mid == st.mid && st'.passes == st.passes
    && |st'.sleeps| == |st.sleeps| && CallsExtend(st.sleeps, st'.sleeps)
  }

  lemma HeadCanResume(st: State, c: nat)
    requires Inv(st) && c in st.handlers && st.handlers[c] != []
    ensures Enabled(true, st, Resume(c))
  {
    assert HandlerOk(st.sleeps, c, st.handlers[c]) && PendingOk(st.sleeps, c, st.handlers[c][0]);
    assert PlaceOk(st, st.handlers[c][0].id);
  }

  lemma ResumeOther(st: State, c: nat, p: nat)
    requires Enabled(true, st, Resume(c)) && p in st.procs && st.handlers[c][0].proc != p
    ensures SameFor(st, Next(true, st, Resume(c)), p)
  {
  }

  lemma SameForTrans(a: State, b: State, c: State, p: nat)
    requires SameFor(a, b, p) && SameFor(b, c, p)
    ensures SameFor(a, c, p)
  {
  }

  lemma DrainOne(st0: State, st: State, c: nat, p: nat) returns (next: State)
    requires Reaches(st0, st) && Inv(st) && c in st.handlers && st.handlers[c] != [] && p in st.procs
    requires st.handlers[c][0].proc != p
    ensures Reaches(st0, next) && Inv(next) && SameFor(st, next, p)
    ensures next.handlers == st.handlers[c := st.handlers[c][1..]]
  {
    HeadCanResume(st, c);
    ResumeOther(st, c, p);
    ReachesNext(st0, st, Resume(c));
    StepKeepsInv(st, Resume(c));
    next := Next(true, st, Resume(c));
  }

  /** Let handler `c` do its first `j` resumes, none of which concerns `p`. */
  lemma {:induction false} Drain(st0: State, st: State, c: nat, j: nat, p: nat) returns (st': State)
    requires Reaches(st0, st) && Inv(st) && c in st.handlers && j <= |st.handlers[c]| && p in st.procs
    requires forall i :: 0 <= i < j ==> st.handlers[c][i].proc != p
    ensures Reaches(st0, st') && Inv(st') && SameFor(st, st', p)
    ensures st'.handlers == st.handlers[c := st.handlers[c][j..]]
    decreases j
  {
    if j == 0 {
      st' := st;
      assert st.handlers[c][0..] == st.handlers[c];
    } else {
      var next := DrainOne(st0, st, c, p);
      var rest := st.handlers[c][1..];
      st' := Drain(st0, next, c, j - 1, p);
      assert rest[j - 1..] == st.handlers[c][j..];
      SameForTrans(st, next, st', p);
    }
  }

  /** The first resume for `p` in a handler's list, or the end of the list. */
  function FirstFor(ts: seq<Ticket>, p: nat): (j: nat)
    ensures j <= |ts| && (forall i :: 0 <= i < j ==> ts[i].proc != p) && (j < |ts| ==> ts[j].proc == p)
  {
    if ts == [] || ts[0].proc == p then 0 else 1 + FirstFor(ts[1..], p)
  }

  /** `p` sleeps in call `id` and has an older entry `w` that is due sooner; no handler runs. */
  predicate Threatened(st: State, p: nat, id: nat, w: nat) {
    && st.handlers == map[] && st.mid == map[]
    && p in st.procs && st.procs[p] == Sleeping(id) && id < |st.sleeps| && st.sleeps[id].proc == p
    && w < |st.sleeps| && st.sleeps[w].proc == p && st.passes < Due(st.sleeps[w]) < Due(st.sleeps[id])
  }

  /** One pass, up to the first resume of `p` in it. */
  lemma OnePass(st0: State, st: State, p: nat, id: nat, w: nat) returns (b: State)
    requires Reaches(st0, st) && Inv(st) && Threatened(st, p, id, w)
    ensures Reaches(st0, b) && Inv(b) && b.passes == st.passes + 1 && b.mid == map[] && b.handlers.Keys == {0}
    ensures p in b.procs && b.procs[p] == Sleeping(id) && |b.sleeps| == |st.sleeps| && CallsExtend(st.sleeps, b.sleeps)
    ensures b.handlers[0] == [] ==> b.passes < Due(b.sleeps[w])
    ensures b.handlers[0] != [] ==> b.handlers[0][0].proc == p
  {
    var a := Next(true, st, Collect(0));
    ReachesNext(st0, st, Collect(0));
    StepKeepsInv(st, Collect(0));
    StepExtendsCalls(st, Collect(0));
    var hs := a.handlers[0];
    var j := FirstFor(hs, p);
    b := Drain(st0, a, 0, j, p);
    assert b.handlers[0] == hs[j..];
    if j == |hs| {
      NotCollected(st, w);
    }
  }

  lemma NotCollected(st: State, w: nat)
    requires Inv(st) && Enabled(true, st, Collect(0)) && w < |st.sleeps| && st.passes < Due(st.sleeps[w])
    requires forall t <- Expired(Decremented(st.timers)) :: t.proc != st.sleeps[w].proc
    ensures st.passes + 1 < Due(st.sleeps[w])
  {
    assert PlaceOk(st, w);
    CollectMovesCall(st, 0, w);
    assert PlaceOk(Next(true, st, Collect(0)), w);
  }

  /** From a quiet state, passes alone bring the early end about. */
  lemma {:induction false} LeftoverStrikes(st0: State, st: State, p: nat, id: nat, w: nat) returns (st': State)
    requires Reaches(st0, st) && Inv(st) && Threatened(st, p, id, w)
    ensures Reaches(st0, st') && EndsEarly(st', id)
    decreases Due(st.sleeps[w]) - st.passes
  {
    var b := OnePass(st0, st, p, id, w);
    if b.handlers[0] != [] {
      StrikesNow(b, 0, id);
      st' := b;
    } else {
      var d := Next(true, b, Finish(0));
      ReachesNext(st0, b, Finish(0));
      StepKeepsInv(b, Finish(0));
      assert d.handlers == map[];
      st' := LeftoverStrikes(st0, d, p, id, w);
    }
  }

  lemma StrikesNow(b: State, c: nat, id: nat)
    requires Inv(b) && c in b.handlers && b.handlers[c] != [] && id < |b.sleeps| && b.passes < Due(b.sleeps[id])
    requires var p := b.handlers[c][0].proc;
             p in b.procs && b.procs[p] == Sleeping(id) && b.sleeps[id].proc == p
    ensures EndsEarly(b, id)
  {
    HeadCanResume(b, c);
    assert HandlerOk(b.sleeps, c, b.handlers[c]) && PendingOk(b.sleeps, c, b.handlers[c][0]);
    assert PlaceOk(b, b.handlers[c][0].id);
    assert EndsEarlyAt(b, c, id);
  }

  /** `p` sleeps in call `id`, which is not due yet. */
  predicate SleepsIn(st: State, p: nat, id: nat) {
    && p in st.procs && st.procs[p] == Sleeping(id) && id < |st.sleeps| && st.sleeps[id].proc == p
    && st.passes < Due(st.sleeps[id])
  }

  /** A handler in flight either resumes `p`, too early, or comes to its end. */
  lemma HandlerRuns(st0: State, st: State, p: nat, id: nat, c: nat) returns (st': State)
    requires Reaches(st0, st) && Inv(st) && SleepsIn(st, p, id) && c in st.handlers
    ensures Reaches(st0, st') && Inv(st')
    ensures EndsEarly(st', id) || (SameFor(st, st', p) && st'.handlers == st.handlers - {c})
    ensures (exists i :: 0 <= i < |st.handlers[c]| && st.handlers[c][i].proc == p) ==> EndsEarly(st', id)
  {
    var hs := st.handlers[c];
    var j := FirstFor(hs, p);
    var b := Drain(st0, st, c, j, p);
    assert b.handlers[c] == hs[j..];
    if j < |hs| {
      StrikesNow(b, c, id);
      st' := b;
    } else {
      ReachesNext(st0, b, Finish(c));
      StepKeepsInv(b, Finish(c));
      st' := Next(true, b, Finish(c));
      assert st'.handlers == st.handlers - {c};
    }
  }

  /** Let all handlers in flight run to their ends, unless one ends the sleep early. */
  lemma {:induction false} HandlersRun(st0: State, st: State, p: nat, id: nat) returns (st': State)
    requires Reaches(st0, st) && Inv(st) && SleepsIn(st, p, id)
    ensures Reaches(st0, st') && Inv(st')
    ensures EndsEarly(st', id) || (SameFor(st, st', p) && st'.handlers == map[])
    decreases |st.handlers|
  {
    if st.handlers == map[] {
      st' := st;
    } else {
      var c :| c in st.handlers;
      st' := HandlerRuns(st0, st, p, id, c);
      if !EndsEarly(st', id) {
        var a := st';
        assert a.handlers.Keys == st.handlers.Keys - {c} && |a.handlers| < |st.handlers|;
        st' := HandlersRun(st0, a, p, id);
        if !EndsEarly(st', id) {
          SameForTrans(st, a, st', p);
        }
      }
    }
  }

  /** An outstanding entry that is due sooner can end the sleep early, be it on the list or already
      collected by a handler in flight. */
  lemma OutstandingStrikes(z: State, p: nat, id: nat, w: nat) returns (st': State)
    requires Inv(z) && SleepsIn(z, p, id) && z.mid == map[]
    requires w < |z.sleeps| && Outstanding(z.sleeps[w], p) && Due(z.sleeps[w]) < Due(z.sleeps[id])
    ensures Reaches(z, st') && EndsEarly(st', id)
  {
    ReachesItself(z);
    assert PlaceOk(z, w);
    if z.sleeps[w].place.Pending? {
      var c := z.sleeps[w].place.cpu;
      assert Ticket(p, w) in z.handlers[c];
      st' := HandlerRuns(z, z, p, id, c);
    } else {
      st' := HandlersRun(z, z, p, id);
      if !EndsEarly(st', id) {
        st' := LeftoverStrikes(z, st', p, id, w);
      }
    }
  }

  /** The state in which `p` has just gone to sleep. */
  ghost function Asleep(st: State, p: nat, ms: nat): State
    requires Enabled(true, st, Push(p, ms))
  {
    Next(true, Next(true, st, Push(p, ms)), Block(p))
  }

  predicate LeftoverBefore(st: State, p: nat, ms: nat) {
    exists w :: 0 <= w < |st.sleeps| && Outstanding(st.sleeps[w], p)
                && Due(st.sleeps[w]) < Due(Sleep(p, ms, st.passes, Listed, {}))
  }

  lemma {:induction false} EndsEarlyNeedsLeftover(st: State, p: nat, ms: nat, st': State)
    requires Inv(st) && Enabled(true, st, Push(p, ms))
    requires Reaches(Asleep(st, p, ms), st') && EndsEarly(st', |st.sleeps|)
    ensures LeftoverBefore(st, p, ms)
  {
    var id := |st.sleeps|;
    var z := Asleep(st, p, ms);
    StepKeepsInv(st, Push(p, ms));
    StepKeepsInv(Next(true, st, Push(p, ms)), Block(p));
    ReachesExtendsCalls(z, st');
    var c :| EndsEarlyAt(st', c, id);
    var t := st'.handlers[c][0];
    assert InCall(st', p, id) && CallOk(st', p, id);
    assert HandlerOk(st'.sleeps, c, st'.handlers[c]) && PendingOk(st'.sleeps, c, t);
    assert PlaceOk(st', t.id);
    assert Due(st'.sleeps[t.id]) <= st'.passes < Due(st'.sleeps[id]);
    assert t.id in OutstandingIds(st'.sleeps, p);
    assert z.sleeps[id].leftovers == OutstandingIds(st.sleeps, p);
    assert t.id in OutstandingIds(st.sleeps, p);
    assert z.sleeps[t.id] == st.sleeps[t.id];
  }

  /** A sleep can be ended by a timer before its due pass exactly when the process still has an
      entry from an earlier, interrupted sleep that is due sooner. */
  lemma EarlyEndIffLeftover(st: State, p: nat, ms: nat)
    requires Inv(st) && Enabled(true, st, Push(p, ms))
    ensures (exists st' :: Reaches(Asleep(st, p, ms), st') && EndsEarly(st', |st.sleeps|)) <==> LeftoverBefore(st, p, ms)
  {
    var z := Asleep(st, p, ms);
    if st' :| Reaches(z, st') && EndsEarly(st', |st.sleeps|) {
      EndsEarlyNeedsLeftover(st, p, ms, st');
    }
    if LeftoverBefore(st, p, ms) {
      var w :| 0 <= w < |st.sleeps| && Outstanding(st.sleeps[w], p)
               && Due(st.sleeps[w]) < Due(Sleep(p, ms, st.passes, Listed, {}));
      StepKeepsInv(st, Push(p, ms));
      StepKeepsInv(Next(true, st, Push(p, ms)), Block(p));
      var st' := OutstandingStrikes(z, p, |st.sleeps|, w);
    }
  }

  /** A one-second sleep, cut by a signal. */
  lemma InterruptedSleep() returns (run: seq<State>, steps: seq<Step>)
    ensures IsRun(true, run, steps) && Init(run[0]) && Enabled(true, run[|steps|], Push(0, 5000))
    ensures run[|steps|].passes == 0 && run[|steps|].sleeps == [Sleep(0, 1000, 0, Listed, {})]
  {
    var s0 := State([], map[], map[0 := Runnable], map[], 0, []);
    steps := [Push(0, 1000), Block(0), Signal(0)];
    assert OutstandingIds([], 0) == {};
    var s1 := Next(true, s0, steps[0]);
    var s2 := Next(true, s1, steps[1]);
    var s3 := Next(true, s2, steps[2]);
    run := [s0, s1, s2, s3];
    assert s3.mid == map[];
  }

  /** It leaves an entry that can end the next, five-second one early. */
  lemma InterruptedSleepLeavesEntry() returns (run: seq<State>, steps: seq<Step>, early: State)
    ensures IsRun(true, run, steps) && Init(run[0]) && Enabled(true, run[|steps|], Push(0, 5000))
    ensures Reaches(Asleep(run[|steps|], 0, 5000), early) && EndsEarly(early, 1)
  {
    run, steps := InterruptedSleep();
    EveryRunKeepsInv(run, steps);
    var st := run[|steps|];
    assert Ticks(1000) == 100 && Ticks(5000) == 500;
    assert LeftoverBefore(st, 0, 5000) by {
      assert Outstanding(st.sleeps[0], 0) && Due(st.sleeps[0]) == 100;
    }
    EarlyEndIffLeftover(st, 0, 5000);
    early :| Reaches(Asleep(st, 0, 5000), early) && EndsEarly(early, 1);
  }
}
