/** The posix_spawn child that interprets file actions itself while it keeps a status pipe open on
    some descriptor `p`, moving `p` out of the way of every action. */
module SpawnFallback {
  import opened Common

  /** Open file descriptions; `Opened(i, node)` is the one action `i` created. */
  datatype File = Inherited(id: nat) | Opened(index: nat, node: nat) | StatusPipe

  datatype Entry = Entry(file: File, cloexec: bool)

  type Table = map<nat, Entry>

  datatype Op =
    | Close(fd: int)
    | Dup2(fd: int, src: int)
    | Open(fd: int, path: nat, cloexec: bool)
    | Chdir(fd: int, path: nat)
    | Fchdir(fd: int)
    | Unknown(fd: int)

  /** What the file system answers: the node a path names, the directory a path or file is. */
  datatype World = World(open: (nat, nat) -> Option<nat>, dir: (nat, nat) -> Option<nat>, fdir: File -> Option<nat>)

  datatype Child = Child(table: Table, cwd: nat)

  // ---- Reference meaning of the actions ----

  function Without(t: Table, fd: int): Table {
    if fd < 0 then t else t - {fd}
  }

  /** The lowest descriptor from `k` on that is not in use. */
  function FreeFrom(used: set<nat>, k: nat): (f: nat)
    ensures k <= f && f !in used && forall j: nat :: k <= j < f ==> j in used
    decreases |used|
  {
    if k !in used then k
    else
      var rest := used - {k};
      var f := FreeFrom(rest, k + 1);
      assert forall j: nat :: k < j < f ==> j in used by {
        forall j: nat | k < j < f
          ensures j in used
        {
          assert j in rest;
        }
      }
      f
  }

  /** One action, the `i`-th. `free` is the descriptor the kernel would give an `open`: a
      close-on-exec file keeps its flag only if it is opened on the right descriptor at once. */
  function Apply(w: World, c: Child, op: Op, i: nat, free: nat): Option<Child> {
    match op
    case Close(fd) => Some(c.(table := Without(c.table, fd)))
    case Dup2(fd, src) =>
      if src == fd then Some(c)
      else if src < 0 || fd < 0 || src !in c.table then None
      else Some(c.(table := c.table[fd := Entry(c.table[src].file, false)]))
    case Open(fd, path, cloexec) =>
      var node := w.open(c.cwd, path);
      if node.None? || fd < 0 then None
      else Some(c.(table := c.table[fd := Entry(Opened(i, node.value), cloexec && fd == free)]))
    case Chdir(_, path) =>
      var d := w.dir(c.cwd, path);
      if d.None? then None else Some(c.(cwd := d.value))
    case Fchdir(fd) =>
      if fd < 0 || fd !in c.table then None
      else
        var d := w.fdir(c.table[fd].file);
        if d.None? then None else Some(c.(cwd := d.value))
    case Unknown(_) => Some(c)
  }

  /** A single action on a table without any status pipe. */
  function PlainStep(w: World, c: Child, op: Op, i: nat): Option<Child> {
    Apply(w, c, op, i, FreeFrom(c.table.Keys, 0))
  }

  datatype Outcome = Outcome(child: Child, failed: Option<nat>)

  /** The actions from `i` on, stopping at the first that fails. */
  function Plain(w: World, c: Child, ops: seq<Op>, i: nat): Outcome
    requires i <= |ops|
    decreases |ops| - i
  {
    if i == |ops| then Outcome(c, None)
    else
      var next := PlainStep(w, c, ops[i], i);
      if next.None? then Outcome(c, Some(i)) else Plain(w, next.value, ops, i + 1)
  }

  /** What an action that succeeds does to every descriptor and to the directory. */
  lemma ActionMeans(w: World, c: Child, op: Op, i: nat, fd: nat)
    requires PlainStep(w, c, op, i).Some?
    ensures var now := PlainStep(w, c, op, i).value;
            && (op.fd != fd || op.Chdir? || op.Fchdir? || op.Unknown? ==>
                  (fd in now.table <==> fd in c.table) && (fd in c.table ==> now.table[fd] == c.table[fd]))
            && (op.Close? && op.fd == fd ==> fd !in now.table)
            && (op.Dup2? && op.fd == fd && op.src != fd ==>
                  fd in now.table && op.src in c.table && now.table[fd].file == c.table[op.src].file && !now.table[fd].cloexec)
            && (op.Dup2? && op.fd == fd == op.src ==> now == c)
            && (op.Open? && op.fd == fd ==>
                  fd in now.table && w.open(c.cwd, op.path).Some?
                  && now.table[fd].file == Opened(i, w.open(c.cwd, op.path).value))
            && (!op.Chdir? && !op.Fchdir? ==> now.cwd == c.cwd)
  {
  }

  /** When an action fails. */
  lemma ActionFails(w: World, c: Child, op: Op, i: nat)
    ensures PlainStep(w, c, op, i).None? <==>
              || (op.Dup2? && op.src != op.fd && (op.fd < 0 || op.src !in c.table))
              || (op.Open? && (op.fd < 0 || w.open(c.cwd, op.path).None?))
              || (op.Chdir? && w.dir(c.cwd, op.path).None?)
              || (op.Fchdir? && (op.fd !in c.table || w.fdir(c.table[op.fd].file).None?))
  {
  }

  /** A change of directory, by path or by descriptor, is what a later open is resolved against. */
  lemma ChdirThenOpen(w: World, c: Child, go: Op, open: Op, i: nat, dir: nat)
    requires open.Open? && open.fd >= 0
    requires (go.Chdir? && w.dir(c.cwd, go.path) == Some(dir))
             || (go.Fchdir? && go.fd in c.table && w.fdir(c.table[go.fd].file) == Some(dir))
    requires w.open(dir, open.path).Some?
    ensures var ops := [go, open];
            var end := Plain(w, c, ops, 0);
            && end.failed == None && end.child.cwd == dir && open.fd in end.child.table
            && end.child.table[open.fd].file == Opened(1, w.open(dir, open.path).value)
  {
    var ops := [go, open];
    var moved := PlainStep(w, c, go, 0).value;
    assert moved == c.(cwd := dir);
    var end := PlainStep(w, moved, open, 1).value;
    assert Plain(w, c, ops, 0) == Plain(w, moved, ops, 1) == Plain(w, end, ops, 2);
  }

  // ---- The same actions with the status pipe in the table ----

  /** Where the pipe is while action `op` runs: an action on its descriptor sends it to the lowest free one. */
  function PipeAfter(c: Child, p: nat, op: Op): (q: nat)
    ensures p !in c.table ==> q !in c.table && q != op.fd
  {
    if op.fd == p then FreeFrom(c.table.Keys + {p}, 0) else p
  }

  function PipedStep(w: World, c: Child, p: nat, op: Op, i: nat): Option<Child> {
    Apply(w, c, op, i, FreeFrom(c.table.Keys + {PipeAfter(c, p, op)}, 0))
  }

  datatype PipedOutcome = PipedOutcome(child: Child, p: nat, failed: Option<nat>)

  /** The actions from `i` on as the child runs them, its view without the pipe and the pipe beside it. */
  function Piped(w: World, c: Child, p: nat, ops: seq<Op>, i: nat): PipedOutcome
    requires i <= |ops|
    decreases |ops| - i
  {
    if i == |ops| then PipedOutcome(c, p, None)
    else
      var q, next := PipeAfter(c, p, ops[i]), PipedStep(w, c, p, ops[i], i);
      if next.None? then PipedOutcome(c, q, Some(i)) else Piped(w, next.value, q, ops, i + 1)
  }

  // ---- Tables that differ only in close-on-exec flags ----

  function Files(t: Table): map<nat, File> {
    map fd <- t :: t[fd].file
  }

  predicate SameFiles(a: Child, b: Child) {
    a.cwd == b.cwd && Files(a.table) == Files(b.table)
  }

  lemma SameFilesAt(a: Child, b: Child, fd: nat)
    requires SameFiles(a, b)
    ensures fd in a.table <==> fd in b.table
    ensures fd in a.table ==> a.table[fd].file == b.table[fd].file
  {
    assert fd in Files(a.table) <==> fd in Files(b.table);
    assert fd in a.table ==> Files(a.table)[fd] == a.table[fd].file && Files(b.table)[fd] == b.table[fd].file;
  }

  /** Which descriptor `open` happens to get never changes what files the child ends up with. */
  lemma FilesIgnoreFree(w: World, a: Child, b: Child, op: Op, i: nat, fa: nat, fb: nat)
    requires SameFiles(a, b)
    ensures Apply(w, a, op, i, fa).None? <==> Apply(w, b, op, i, fb).None?
    ensures Apply(w, a, op, i, fa).Some? ==> SameFiles(Apply(w, a, op, i, fa).value, Apply(w, b, op, i, fb).value)
  {
    match op {
      case Dup2(fd, src) =>
        if src >= 0 {
          SameFilesAt(a, b, src);
        }
      case Fchdir(fd) =>
        if fd >= 0 {
          SameFilesAt(a, b, fd);
        }
      case _ =>
    }
    var x, y := Apply(w, a, op, i, fa), Apply(w, b, op, i, fb);
    if x.Some? && y.Some? {
      forall fd: nat
        ensures fd in x.value.table <==> fd in y.value.table
        ensures fd in x.value.table ==> x.value.table[fd].file == y.value.table[fd].file
      {
        SameFilesAt(a, b, fd);
      }
    }
  }

  lemma FreeWithPipe(used: set<nat>, p: nat)
    requires p !in used
    ensures FreeFrom(used + {p}, 0) == if p == FreeFrom(used, 0) then FreeFrom(used + {p}, p + 1) else FreeFrom(used, 0)
  {
  }

  /** With the pipe open on `p` one action leaves the very same table, flags included, unless it is
      a close-on-exec open onto the descriptor `open` gets only because the pipe blocks the lowest one. */
  lemma FlagsAgreeIff(w: World, c: Child, op: Op, i: nat, p: nat)
    requires p !in c.table && p != op.fd
    ensures Apply(w, c, op, i, FreeFrom(c.table.Keys + {p}, 0)) == PlainStep(w, c, op, i)
            <==> !(&& op.Open? && op.cloexec && w.open(c.cwd, op.path).Some?
                   && p == FreeFrom(c.table.Keys, 0) && op.fd == FreeFrom(c.table.Keys + {p}, 0))
  {
    var with, plain := FreeFrom(c.table.Keys + {p}, 0), FreeFrom(c.table.Keys, 0);
    FreeWithPipe(c.table.Keys, p);
    if op.Open? && op.fd >= 0 && w.open(c.cwd, op.path).Some? {
      assert Apply(w, c, op, i, with).value.table[op.fd].cloexec == (op.cloexec && op.fd == with);
      assert Apply(w, c, op, i, plain).value.table[op.fd].cloexec == (op.cloexec && op.fd == plain);
    }
  }

  predicate NoCloexecOpen(ops: seq<Op>) {
    forall k :: 0 <= k < |ops| && ops[k].Open? ==> !ops[k].cloexec
  }

  lemma PipeStaysClear(w: World, c: Child, p: nat, op: Op, i: nat)
    requires p !in c.table
    ensures PipedStep(w, c, p, op, i).Some? ==> PipeAfter(c, p, op) !in PipedStep(w, c, p, op, i).value.table
  {
  }

  /** Transparency: with the pipe in the table the actions leave the files of the plain
      interpretation or fail at the same one, the pipe never shares a descriptor with them, and
      without close-on-exec opens the tables agree completely. */
  lemma {:induction false} StatusPipeTransparent(w: World, a: Child, b: Child, p: nat, ops: seq<Op>, i: nat)
    requires i <= |ops| && SameFiles(a, b) && p !in a.table
    ensures var piped, plain := Piped(w, a, p, ops, i), Plain(w, b, ops, i);
            && piped.failed == plain.failed && SameFiles(piped.child, plain.child) && piped.p !in piped.child.table
            && (a == b && NoCloexecOpen(ops) ==> piped.child == plain.child)
    decreases |ops| - i
  {
    if i < |ops| {
      var q := PipeAfter(a, p, ops[i]);
      FilesIgnoreFree(w, a, b, ops[i], i, FreeFrom(a.table.Keys + {q}, 0), FreeFrom(b.table.Keys, 0));
      PipeStaysClear(w, a, p, ops[i], i);
      FlagsAgreeIff(w, a, ops[i], i, q);
      var next := PipedStep(w, a, p, ops[i], i);
      if next.Some? {
        StatusPipeTransparent(w, next.value, PlainStep(w, b, ops[i], i).value, q, ops, i + 1);
      }
    }
  }

  /** The flag does differ: descriptors 0 to 3 in use, the pipe on 4, a close-on-exec open onto 5. */
  lemma PipeCanChangeAFlag(w: World, c: Child, path: nat, i: nat)
    requires c.table.Keys == {0, 1, 2, 3} && w.open(c.cwd, path).Some?
    ensures Apply(w, c, Open(5, path, true), i, FreeFrom(c.table.Keys + {4}, 0)) != PlainStep(w, c, Open(5, path, true), i)
  {
    FlagsAgreeIff(w, c, Open(5, path, true), i, 4);
    FreeIs(c.table.Keys, 4);
    FreeIs(c.table.Keys + {4}, 5);
  }

  lemma FreeIs(used: set<nat>, f: nat)
    requires f !in used && forall j: nat :: j < f ==> j in used
    ensures FreeFrom(used, 0) == f
  {
    assert FreeFrom(used, 0) !in used;
  }

  /** What is left after `execve`. */
  function Survivors(t: Table): map<nat, File> {
    map fd <- t | !t[fd].cloexec :: t[fd].file
  }

  // ---- The list musl builds ----

  class Fdop {
    var next: Fdop?
    var prev: Fdop?
    const op: Op

    constructor (op: Op)
      ensures this.op == op && next == null && prev == null
    {
      this.op := op;
      next, prev := null, null;
    }
  }

  ghost predicate LinkedAt(nodes: seq<Fdop>, k: nat)
    requires k < |nodes|
    reads nodes[k]
  {
    && nodes[k].next == (if k + 1 < |nodes| then nodes[k + 1] else null)
    && nodes[k].prev == (if k > 0 then nodes[k - 1] else null)
  }

  /** `nodes` is the list from the head (newest action) to the tail (oldest). */
  ghost predicate Linked(head: Fdop?, nodes: seq<Fdop>)
    reads nodes
  {
    && (head == null <==> nodes == []) && (head != null ==> nodes[0] == head)
    && forall k :: 0 <= k < |nodes| ==> LinkedAt(nodes, k)
  }

  /** The actions in the order they were added. */
  ghost function Actions(nodes: seq<Fdop>): seq<Op> {
    seq(|nodes|, i requires 0 <= i < |nodes| => nodes[|nodes| - 1 - i].op)
  }

  /** The list grows at its head, and a new action runs after all earlier ones. */
  lemma NewestRunsLast(node: Fdop, nodes: seq<Fdop>)
    ensures Actions([node] + nodes) == Actions(nodes) + [node.op]
  {
  }

  method FindTail(head: Fdop?, ghost nodes: seq<Fdop>) returns (tail: Fdop?)
    requires Linked(head, nodes)
    ensures if nodes == [] then tail == null else tail == nodes[|nodes| - 1]
  {
    tail := head;
    if tail == null {
      return;
    }
    ghost var k := 0;
    assert LinkedAt(nodes, 0);
    while tail.next != null
      invariant 0 <= k < |nodes| && tail == nodes[k] && LinkedAt(nodes, k)
      decreases |nodes| - k
    {
      tail := tail.next;
      k := k + 1;
    }
  }

  // ---- The child ----

  class FallbackChild {
    var table: Table
    var cwd: nat
    var p: nat

    ghost predicate Valid()
      reads this
    {
      p in table && table[p].file == StatusPipe
    }

    /** The child as seen without its status descriptor. */
    ghost function View(): Child
      reads this
    {
      Child(table - {p}, cwd)
    }

    constructor (table: Table, cwd: nat, p: nat)
      requires p in table && table[p].file == StatusPipe
      ensures Valid() && this.table == table && this.cwd == cwd && this.p == p
    {
      this.table, this.cwd, this.p := table, cwd, p;
    }

    method SysDup(fd: nat) returns (r: int)
      modifies this`table
      ensures fd !in old(table) ==> r < 0 && table == old(table)
      ensures fd in old(table) ==> r == FreeFrom(old(table).Keys, 0) && table == old(table)[r := Entry(old(table)[fd].file, false)]
    {
      if fd !in table {
        return -1;
      }
      r := FreeFrom(table.Keys, 0);
      table := table[r := Entry(table[fd].file, false)];
    }

    method SysClose(fd: int)
      modifies this`table
      ensures table == Without(old(table), fd)
    {
      table := Without(table, fd);
    }

    method SysDup2(src: int, fd: int) returns (r: int)
      modifies this`table
      ensures r >= 0 <==> src >= 0 && fd >= 0 && src in old(table)
      ensures table == if r < 0 || src == fd then old(table) else old(table)[fd := Entry(old(table)[src].file, false)]
    {
      if src < 0 || fd < 0 || src !in table {
        return -1;
      }
      if src != fd {
        table := table[fd := Entry(table[src].file, false)];
      }
      r := fd;
    }

    method SysOpen(w: World, path: nat, cloexec: bool, i: nat) returns (r: int)
      modifies this`table
      ensures var node := w.open(cwd, path);
              if node.None? then r < 0 && table == old(table)
              else r == FreeFrom(old(table).Keys, 0) && table == old(table)[r := Entry(Opened(i, node.value), cloexec)]
    {
      var node := w.open(cwd, path);
      if node.None? {
        return -1;
      }
      r := FreeFrom(table.Keys, 0);
      table := table[r := Entry(Opened(i, node.value), cloexec)];
    }

    /** Move the status descriptor to the lowest free one. */
    method Relocate()
      requires Valid()
      modifies this
      ensures Valid() && View() == old(View()) && p == FreeFrom(old(table).Keys, 0)
    {
      var newp := SysDup(p);
      SysClose(p);
      p := newp;
      assert View().table == old(View()).table;
    }

    method OpenOnto(w: World, op: Op, i: nat) returns (ok: bool)
      requires Valid() && op.Open? && op.fd != p
      modifies this`table
      ensures Valid()
      ensures var r := Apply(w, old(View()), op, i, FreeFrom(old(table).Keys, 0));
              (ok <==> r.Some?) && View() == if ok then r.value else old(View())
    {
      var fd := SysOpen(w, op.path, op.cloexec, i);
      if fd < 0 {
        return false;
      }
      if fd != op.fd {
        var r := SysDup2(fd, op.fd);
        if r < 0 {
          SysClose(fd);
          assert table == old(table);
          return false;
        }
        SysClose(fd);
      }
      ok := true;
      assert View().table == old(View()).table[op.fd := table[op.fd]];
    }

    /** One action: the pipe moves away, and what is left does exactly what the action means. */
    method RunOp(w: World, op: Op, i: nat) returns (ok: bool)
      requires Valid()
      modifies this
      ensures Valid() && p == PipeAfter(old(View()), old(p), op)
      ensures var r := PipedStep(w, old(View()), old(p), op, i);
              (ok <==> r.Some?) && View() == if ok then r.value else old(View())
    {
      assert table.Keys == View().table.Keys + {p};
      if op.fd == p {
        Relocate();
      }
      ghost var view := View();
      assert table.Keys == view.table.Keys + {p};
      ok := true;
      match op {
        case Close(fd) =>
          SysClose(fd);
          assert View().table == Without(view.table, fd);
        case Dup2(fd, src) =>
          if src == p {
            return false;
          }
          if src != fd {
            var r := SysDup2(src, fd);
            if r < 0 {
              return false;
            }
            assert View().table == view.table[fd := Entry(view.table[src].file, false)];
          }
        case Open(_, _, _) =>
          ok := OpenOnto(w, op, i);
        case Chdir(_, path) =>
          var d := w.dir(cwd, path);
          if d.None? {
            return false;
          }
          cwd := d.value;
        case Fchdir(fd) =>
          if fd < 0 || fd !in table {
            return false;
          }
          var d := w.fdir(table[fd].file);
          if d.None? {
            return false;
          }
          cwd := d.value;
        case Unknown(_) =>
      }
    }

    /** The whole list, oldest action first, is the run with the pipe, and so ends with the files of
        the plain interpretation or fails at the same action; `p` is the status pipe throughout. */
    method RunActions(w: World, head: Fdop?, ghost nodes: seq<Fdop>) returns (failed: Option<nat>)
      requires Valid() && Linked(head, nodes)
      modifies this
      ensures Valid()
      ensures PipedOutcome(View(), p, failed) == Piped(w, old(View()), old(p), Actions(nodes), 0)
      ensures var plain := Plain(w, old(View()), Actions(nodes), 0);
              && failed == plain.failed && SameFiles(View(), plain.child)
              && (NoCloexecOpen(Actions(nodes)) ==> View() == plain.child)
    {
      StatusPipeTransparent(w, View(), View(), p, Actions(nodes), 0);
      failed := WalkList(w, head, nodes);
    }

    /** Action `i` of a list, seen as one unfolding of the run with the pipe. */
    method RunNth(w: World, op: Op, i: nat, ghost ops: seq<Op>) returns (ok: bool)
      requires Valid() && i < |ops| && op == ops[i]
      modifies this
      ensures Valid()
      ensures Piped(w, old(View()), old(p), ops, i)
              == if ok then Piped(w, View(), p, ops, i + 1) else PipedOutcome(View(), p, Some(i))
    {
      ok := RunOp(w, op, i);
    }

    method WalkList(w: World, head: Fdop?, ghost nodes: seq<Fdop>) returns (failed: Option<nat>)
      requires Valid() && Linked(head, nodes)
      modifies this
      ensures Valid()
      ensures PipedOutcome(View(), p, failed) == Piped(w, old(View()), old(p), Actions(nodes), 0)
    {
      ghost var ops := Actions(nodes);
      ghost var start := Piped(w, View(), p, ops, 0);
      var op := FindTail(head, nodes);
      var i := 0;
      while op != null
        invariant Valid() && 0 <= i <= |nodes|
        invariant op == if i < |nodes| then nodes[|nodes| - 1 - i] else null
        invariant start == Piped(w, View(), p, ops, i)
        decreases |nodes| - i
      {
        assert LinkedAt(nodes, |nodes| - 1 - i);
        var ok := RunNth(w, op.op, i, ops);
        if !ok {
          return Some(i);
        }
        op := op.prev;
        i := i + 1;
      }
      failed := None;
    }

    /** `fcntl(p, F_SETFD, FD_CLOEXEC)` and `execve`: the new image never sees the pipe. */
    method Exec() returns (files: map<nat, File>)
      requires Valid()
      modifies this`table
      ensures Valid() && View() == old(View())
      ensures files == Survivors(View().table)
    {
      table := table[p := Entry(table[p].file, true)];
      files := Survivors(table);
      assert View().table == old(View()).table;
    }
  }
}
