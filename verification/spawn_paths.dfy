/** The two ways a `posix_spawn` applies its file actions: the kernel's own spawn call, after the C
    library has translated the action list, and the library's fallback child. */
module SpawnPaths {
  import opened Common
  import opened SpawnFallback

  const FA_MAX: nat := 64
  const FD_MAX: nat := 1024

  // ---- Translating the list for the kernel ----

  /** One element of the array handed to the kernel; a duplication names its source first. */
  datatype Wire = WireClose(fd: int) | WireDup2(fd: int, newfd: int) | WireOpen(fd: int, path: nat, cloexec: bool)

  datatype Translation = Translated(wire: seq<Wire>) | TooBig | NoSys | Invalid

  predicate Supported(op: Op) {
    op.Close? || op.Dup2? || op.Open?
  }

  function ToWire(op: Op): Wire
    requires Supported(op)
  {
    match op
    case Close(fd) => WireClose(fd)
    case Dup2(fd, src) => WireDup2(src, fd)
    case Open(fd, path, cloexec) => WireOpen(fd, path, cloexec)
  }

  /** The first action that cannot be handed over, or the end of the list. */
  function FirstStop(ops: seq<Op>, i: nat): (k: nat)
    requires i <= |ops|
    ensures i <= k <= |ops| && (forall j :: i <= j < k ==> Supported(ops[j])) && (i < k ==> k <= FA_MAX)
    ensures k < |ops| ==> !Supported(ops[k]) || k >= FA_MAX
    decreases |ops| - i
  {
    if i == |ops| || i >= FA_MAX || !Supported(ops[i]) then i
    else
      var k := FirstStop(ops, i + 1);
      assert forall j :: i < j < k ==> Supported(ops[j]);
      k
  }

  /** What the walk answers: the list as a whole, or the reason of its first obstacle; the size is
      looked at before the command. */
  function Verdict(ops: seq<Op>): Translation {
    var k := FirstStop(ops, 0);
    if k == |ops| then Translated(seq(k, i requires 0 <= i < k => ToWire(ops[i])))
    else if k >= FA_MAX then TooBig
    else if ops[k].Unknown? then Invalid
    else NoSys
  }

  /** The kernel sees the list exactly when it has at most 64 actions, all closes, duplications or
      opens; the fallback takes over exactly when a directory change comes before any other obstacle. */
  lemma VerdictMeaning(ops: seq<Op>)
    ensures Verdict(ops).Translated? <==> |ops| <= FA_MAX && forall k :: 0 <= k < |ops| ==> Supported(ops[k])
    ensures Verdict(ops).TooBig? <==> |ops| > FA_MAX && forall k :: 0 <= k < FA_MAX ==> Supported(ops[k])
    ensures Verdict(ops).NoSys? <==>
              exists k :: 0 <= k < |ops| && k < FA_MAX && (ops[k].Chdir? || ops[k].Fchdir?)
                          && forall j :: 0 <= j < k ==> Supported(ops[j])
  {
    var k := FirstStop(ops, 0);
    assert forall j :: 0 <= j < k ==> Supported(ops[j]);
    if k < |ops| && k < FA_MAX {
      assert !Supported(ops[k]);
    }
  }

  lemma AllTranslated(ops: seq<Op>, wire: seq<Wire>)
    requires FirstStop(ops, 0) == |ops| == |wire|
    requires forall j :: 0 <= j < |ops| ==> Supported(ops[j]) && wire[j] == ToWire(ops[j])
    ensures Verdict(ops) == Translated(wire)
  {
    assert wire == seq(|ops|, i requires 0 <= i < |ops| => ToWire(ops[i]));
  }

  method Translate(head: Fdop?, ghost nodes: seq<Fdop>) returns (r: Translation)
    requires Linked(head, nodes)
    ensures r == Verdict(Actions(nodes))
  {
    ghost var ops := Actions(nodes);
    var actions: array<Wire> := new Wire[FA_MAX](_ => WireClose(0));
    var count := 0;
    var op := FindTail(head, nodes);
    while op != null
      invariant 0 <= count <= |ops| && count <= FA_MAX
      invariant op == if count < |ops| then nodes[|ops| - 1 - count] else null
      invariant forall j :: 0 <= j < count ==> Supported(ops[j]) && actions[j] == ToWire(ops[j])
      invariant FirstStop(ops, 0) == FirstStop(ops, count)
      decreases |ops| - count
    {
      assert LinkedAt(nodes, |ops| - 1 - count);
      assert op.op == ops[count];
      if count >= FA_MAX {
        return TooBig;
      }
      match op.op {
        case Close(fd) => actions[count] := WireClose(fd);
        case Dup2(fd, src) => actions[count] := WireDup2(src, fd);
        case Open(fd, path, cloexec) => actions[count] := WireOpen(fd, path, cloexec);
        case Chdir(_, _) => return NoSys;
        case Fchdir(_) => return NoSys;
        case Unknown(_) => return Invalid;
      }
      count := count + 1;
      op := op.prev;
    }
    r := Translated(actions[..count]);
    AllTranslated(ops, actions[..count]);
  }

  // ---- The kernel's interpretation ----

  /** One action on the child's cloned table, as `Process::spawn` applies it. */
  function KernelStep(w: World, t: Table, cwd: nat, a: Wire, i: nat): Option<Table> {
    match a
    case WireClose(fd) => Some(Without(t, fd))
    case WireDup2(fd, newfd) =>
      if fd < 0 || newfd < 0 || fd !in t then None else Some(t[newfd := Entry(t[fd].file, false)])
    case WireOpen(fd, path, cloexec) =>
      var node := w.open(cwd, path);
      if node.None? || fd < 0 || fd in t then None else Some(t[fd := Entry(Opened(i, node.value), cloexec)])
  }

  datatype KernelOutcome = KernelOutcome(table: Table, failed: Option<nat>)

  function Kernel(w: World, t: Table, cwd: nat, ops: seq<Op>, i: nat): KernelOutcome
    requires i <= |ops| && forall k :: 0 <= k < |ops| ==> Supported(ops[k])
    decreases |ops| - i
  {
    if i == |ops| then KernelOutcome(t, None)
    else
      var next := KernelStep(w, t, cwd, ToWire(ops[i]), i);
      if next.None? then KernelOutcome(t, Some(i)) else Kernel(w, next.value, cwd, ops, i + 1)
  }

  /** `close_cloexec_files`. */
  function Inheritable(t: Table): Table {
    map fd <- t | !t[fd].cloexec :: t[fd]
  }

  // ---- When the two agree ----

  /** In the fallback child's view: the descriptors the kernel's table has too. */
  predicate KernelHas(t: Table, fd: int) {
    fd >= 0 && fd in t && !(t[fd].cloexec && t[fd].file.Inherited?)
  }

  /** Actions that work in the fallback child and are refused by the kernel: duplicating a
      close-on-exec descriptor of the parent, duplicating an unusable descriptor onto itself, and
      opening onto a descriptor that is in use. */
  predicate Refused(w: World, c: Child, op: Op) {
    || (op.Dup2? && !KernelHas(c.table, op.src) && (op.src == op.fd || op.src in c.table))
    || (op.Open? && KernelHas(c.table, op.fd) && w.open(c.cwd, op.path).Some?)
  }

  /** No action the fallback child gets to is refused. */
  predicate NeverRefused(w: World, c: Child, p: nat, ops: seq<Op>, i: nat)
    requires i <= |ops|
    decreases |ops| - i
  {
    i < |ops| ==>
      && !Refused(w, c, ops[i])
      && var next := PipedStep(w, c, p, ops[i], i);
         next.Some? ==> NeverRefused(w, next.value, PipeAfter(c, p, ops[i]), ops, i + 1)
  }

  /** A file opened close-on-exec right on its descriptor: the fallback's `execve` closes it, the
      kernel's spawn does not. */
  predicate OpenedCloexec(t: Table) {
    exists fd :: fd in t && t[fd].cloexec && t[fd].file.Opened?
  }

  /** Kernel table and fallback view in step: same files, the parent's close-on-exec ones missing. */
  ghost predicate InStep(k: Table, t: Table) {
    && (forall fd: nat :: fd in k <==> KernelHas(t, fd))
    && (forall fd: nat :: fd in k ==> k[fd].file == t[fd].file)
    && (forall fd: nat :: fd in t ==> t[fd].file.Inherited? || t[fd].file.Opened?)
  }

  predicate InRange(op: Op) {
    0 <= op.fd < FD_MAX && (op.Dup2? ==> 0 <= op.src < FD_MAX)
  }

  lemma StepTogether(w: World, k: Table, c: Child, p: nat, op: Op, i: nat)
    requires InStep(k, c.table) && Supported(op) && InRange(op)
    ensures var kn := KernelStep(w, k, c.cwd, ToWire(op), i);
            var fn := PipedStep(w, c, p, op, i);
            if Refused(w, c, op) then kn.None? && fn.Some?
            else (kn.None? <==> fn.None?) && (kn.Some? ==> InStep(kn.value, fn.value.table) && fn.value.cwd == c.cwd)
  {
  }

  lemma {:induction false} RunTogether(w: World, k: Table, c: Child, p: nat, ops: seq<Op>, i: nat)
    requires i <= |ops| && InStep(k, c.table)
    requires forall j :: 0 <= j < |ops| ==> Supported(ops[j]) && InRange(ops[j])
    ensures var kernel, fallback := Kernel(w, k, c.cwd, ops, i), Piped(w, c, p, ops, i);
            && (kernel.failed == fallback.failed <==> NeverRefused(w, c, p, ops, i))
            && (NeverRefused(w, c, p, ops, i) ==> InStep(kernel.table, fallback.child.table))
    decreases |ops| - i
  {
    if i < |ops| {
      StepTogether(w, k, c, p, ops[i], i);
      var kn, fn := KernelStep(w, k, c.cwd, ToWire(ops[i]), i), PipedStep(w, c, p, ops[i], i);
      if kn.Some? {
        RunTogether(w, kn.value, fn.value, PipeAfter(c, p, ops[i]), ops, i + 1);
      } else if fn.Some? {
        FallbackFailsLater(w, fn.value, PipeAfter(c, p, ops[i]), ops, i + 1);
      }
    }
  }

  lemma {:induction false} FallbackFailsLater(w: World, c: Child, p: nat, ops: seq<Op>, i: nat)
    requires i <= |ops|
    ensures Piped(w, c, p, ops, i).failed.Some? ==> Piped(w, c, p, ops, i).failed.value >= i
    decreases |ops| - i
  {
    if i < |ops| && PipedStep(w, c, p, ops[i], i).Some? {
      FallbackFailsLater(w, PipedStep(w, c, p, ops[i], i).value, PipeAfter(c, p, ops[i]), ops, i + 1);
    }
  }

  lemma SameAfterExec(k: Table, t: Table)
    requires InStep(k, t)
    ensures Files(k) == Survivors(t) <==> !OpenedCloexec(t)
  {
    if fd: nat :| fd in t && t[fd].cloexec && t[fd].file.Opened? {
      assert fd in Files(k) && fd !in Survivors(t);
    } else {
      forall fd: nat
        ensures fd in Files(k) <==> fd in Survivors(t)
        ensures fd in Files(k) ==> Files(k)[fd] == Survivors(t)[fd]
      {
        assert fd in k <==> KernelHas(t, fd);
      }
    }
  }

  /** From one parent table, with the status pipe on any free descriptor, the two paths fail at the
      same action, or both start the program with the same files, exactly when no action the child
      gets to is refused by the kernel and no close-on-exec open is left in the child's own table. */
  lemma PathsAgreeIff(w: World, t: Table, cwd: nat, p: nat, ops: seq<Op>)
    requires forall fd <- t :: t[fd].file.Inherited?
    requires forall j :: 0 <= j < |ops| ==> Supported(ops[j]) && InRange(ops[j])
    ensures var kernel, fallback := Kernel(w, Inheritable(t), cwd, ops, 0), Piped(w, Child(t, cwd), p, ops, 0);
            (&& kernel.failed == fallback.failed
             && (fallback.failed.None? ==> Files(kernel.table) == Survivors(fallback.child.table)))
            <==> && NeverRefused(w, Child(t, cwd), p, ops, 0)
                 && (fallback.failed.None? ==> !OpenedCloexec(fallback.child.table))
  {
    var c := Child(t, cwd);
    var k := Inheritable(t);
    assert InStep(k, t);
    RunTogether(w, k, c, p, ops, 0);
    if NeverRefused(w, c, p, ops, 0) {
      SameAfterExec(Kernel(w, k, cwd, ops, 0).table, Piped(w, c, p, ops, 0).child.table);
    }
  }

  /** Redirecting standard input from a close-on-exec descriptor: fine in the fallback, refused by
      the kernel. */
  lemma CloexecSourceDiffers(w: World, t: Table, cwd: nat, p: nat)
    requires 5 in t && t[5] == Entry(Inherited(5), true)
    ensures Kernel(w, Inheritable(t), cwd, [Dup2(0, 5)], 0).failed == Some(0)
    ensures Piped(w, Child(t, cwd), p, [Dup2(0, 5)], 0).failed == None
  {
    var ops := [Dup2(0, 5)];
    var next := PipedStep(w, Child(t, cwd), p, ops[0], 0);
    assert next.Some? && Piped(w, next.value, PipeAfter(Child(t, cwd), p, ops[0]), ops, 1).failed == None;
  }

  /** The pipe itself can make the difference: with descriptors 0 to 3 in use and the pipe on 5,
      after a duplication onto 4 a close-on-exec open onto 6 gets 6 at once, keeps its flag and is
      closed by `execve`.  Without the pipe, and in the kernel, the program has 6. */
  lemma PipeMakesTheDifference(w: World, t: Table, cwd: nat, path: nat)
    requires t.Keys == {0, 1, 2, 3} && (forall fd <- t :: t[fd] == Entry(Inherited(fd), false))
    requires w.open(cwd, path).Some?
    ensures var ops := [Dup2(4, 0), Open(6, path, true)];
            var kernel, plain := Kernel(w, Inheritable(t), cwd, ops, 0), Plain(w, Child(t, cwd), ops, 0);
            var fallback := Piped(w, Child(t, cwd), 5, ops, 0);
            && kernel.failed == plain.failed == fallback.failed == None
            && 6 in Files(kernel.table) && 6 in Survivors(plain.child.table)
            && 6 !in Survivors(fallback.child.table)
  {
    var ops := [Dup2(4, 0), Open(6, path, true)];
    var c := Child(t, cwd);
    var dup := Child(t[4 := Entry(Inherited(0), false)], cwd);
    assert PipedStep(w, c, 5, ops[0], 0) == Some(dup) && PlainStep(w, c, ops[0], 0) == Some(dup);
    FreeIs(dup.table.Keys, 5);
    FreeIs(dup.table.Keys + {5}, 6);
    var open := PipedStep(w, dup, 5, ops[1], 1);
    assert Piped(w, c, 5, ops, 0) == Piped(w, dup, 5, ops, 1) == Piped(w, open.value, 5, ops, 2);
    var kdup := Inheritable(t)[4 := Entry(Inherited(0), false)];
    assert KernelStep(w, Inheritable(t), cwd, ToWire(ops[0]), 0) == Some(kdup);
    var kopen := KernelStep(w, kdup, cwd, ToWire(ops[1]), 1);
    assert Kernel(w, Inheritable(t), cwd, ops, 0) == Kernel(w, kdup, cwd, ops, 1) == Kernel(w, kopen.value, cwd, ops, 2);
    var popen := PlainStep(w, dup, ops[1], 1);
    assert Plain(w, c, ops, 0) == Plain(w, dup, ops, 1) == Plain(w, popen.value, ops, 2);
  }
}
