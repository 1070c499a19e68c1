/** The kernel's own `memcpy` and `memmove` for targets without string instructions, over one flat
    memory; pointers are indices into it. */
module Mem {

  type Byte = bv8

  /** Byte `k` after `n` bytes move at once from `src` to `dest`. */
  function MovedAt(m: seq<Byte>, dest: nat, src: nat, n: nat, k: nat): Byte
    requires dest + n <= |m| && src + n <= |m| && k < |m|
  {
    if dest <= k < dest + n then m[src + (k - dest)] else m[k]
  }

  ghost predicate IsMove(m: seq<Byte>, now: seq<Byte>, dest: nat, src: nat, n: nat)
    requires dest + n <= |m| && src + n <= |m|
  {
    |now| == |m| && forall k {:trigger MovedAt(m, dest, src, n, k)} :: 0 <= k < |m| ==> now[k] == MovedAt(m, dest, src, n, k)
  }

  /** Byte `k` after `w` is stored at `at`. */
  function StoredAt(m: seq<Byte>, at: nat, w: seq<Byte>, k: nat): Byte
    requires k < |m|
  {
    if at <= k < at + |w| then w[k - at] else m[k]
  }

  ghost predicate IsStore(m: seq<Byte>, now: seq<Byte>, at: nat, w: seq<Byte>)
    requires at + |w| <= |m|
  {
    |now| == |m| && forall k {:trigger StoredAt(m, at, w, k)} :: 0 <= k < |m| ==> now[k] == StoredAt(m, at, w, k)
  }

  ghost predicate IsWord(m: seq<Byte>, at: nat, w: seq<Byte>)
    requires at + 8 <= |m|
  {
    w == m[at..at + 8]
  }

  lemma OneStore(m: seq<Byte>, now: seq<Byte>, w: seq<Byte>, d: nat, s: nat)
    requires d + 8 <= |m| && s + 8 <= |m|
    requires IsWord(m, s, w) && IsStore(m, now, d, w)
    ensures IsMove(m, now, d, s, 8)
  {
    forall x | 0 <= x < |m|
      ensures now[x] == MovedAt(m, d, s, 8, x)
    {
      assert now[x] == StoredAt(m, d, w, x);
    }
  }

  lemma FourStores(m: seq<Byte>, m0: seq<Byte>, m1: seq<Byte>, m2: seq<Byte>, m3: seq<Byte>,
                   w0: seq<Byte>, w1: seq<Byte>, w2: seq<Byte>, w3: seq<Byte>, d: nat, s: nat)
    requires d + 32 <= |m| && s + 32 <= |m|
    requires IsWord(m, s, w0) && IsWord(m, s + 8, w1) && IsWord(m, s + 16, w2) && IsWord(m, s + 24, w3)
    requires IsStore(m, m0, d, w0) && IsStore(m0, m1, d + 8, w1)
    requires IsStore(m1, m2, d + 16, w2) && IsStore(m2, m3, d + 24, w3)
    ensures IsMove(m, m3, d, s, 32)
  {
    forall x | 0 <= x < |m|
      ensures m3[x] == MovedAt(m, d, s, 32, x)
    {
      assert m3[x] == StoredAt(m2, d + 24, w3, x);
      assert m2[x] == StoredAt(m1, d + 16, w2, x);
      assert m1[x] == StoredAt(m0, d + 8, w1, x);
      assert m0[x] == StoredAt(m, d, w0, x);
    }
  }

  /** Copying upwards never overwrites a byte that is still to be read. */
  predicate ForwardSafe(dest: nat, src: nat, n: nat) {
    dest <= src || src + n <= dest
  }

  lemma ForwardStep(m: seq<Byte>, now: seq<Byte>, after: seq<Byte>, dest: nat, src: nat, n: nat, i: nat, k: nat)
    requires dest + n <= |m| && src + n <= |m| && i + k <= n && ForwardSafe(dest, src, n)
    requires IsMove(m, now, dest, src, i) && IsMove(now, after, dest + i, src + i, k)
    ensures IsMove(m, after, dest, src, i + k)
  {
    forall x | 0 <= x < |m|
      ensures after[x] == MovedAt(m, dest, src, i + k, x)
    {
      assert after[x] == MovedAt(now, dest + i, src + i, k, x);
      var y := if dest + i <= x < dest + i + k then src + (x - dest) else x;
      assert now[y] == MovedAt(m, dest, src, i, y);
    }
  }

  lemma BackwardStep(m: seq<Byte>, now: seq<Byte>, after: seq<Byte>, dest: nat, src: nat, n: nat, i: nat)
    requires src < dest && dest + n <= |m| && i < n
    requires IsMove(m, now, dest + i + 1, src + i + 1, n - i - 1)
    requires IsMove(now, after, dest + i, src + i, 1)
    ensures IsMove(m, after, dest + i, src + i, n - i)
  {
    forall x | 0 <= x < |m|
      ensures after[x] == MovedAt(m, dest + i, src + i, n - i, x)
    {
      assert after[x] == MovedAt(now, dest + i, src + i, 1, x);
      var y := if x == dest + i then src + i else x;
      assert now[y] == MovedAt(m, dest + i + 1, src + i + 1, n - i - 1, y);
    }
  }

  method ReadWord(mem: array<Byte>, at: nat, ghost m: seq<Byte>) returns (w: seq<Byte>)
    requires at + 8 <= mem.Length && m == mem[..]
    ensures IsWord(m, at, w)
  {
    w := mem[at..at + 8];
  }

  method WriteWord(mem: array<Byte>, at: nat, w: seq<Byte>, ghost m: seq<Byte>) returns (ghost now: seq<Byte>)
    requires |w| == 8 && at + 8 <= mem.Length && m == mem[..]
    modifies mem
    ensures now == mem[..] && IsStore(m, now, at, w)
  {
    forall k | 0 <= k < 8 {
      mem[at + k] := w[k];
    }
    now := mem[..];
  }

  /** One round of the bulk tier: all four loads come before the four stores. */
  method CopyBlock(mem: array<Byte>, d: nat, s: nat, ghost m: seq<Byte>) returns (ghost now: seq<Byte>)
    requires d + 32 <= mem.Length && s + 32 <= mem.Length && m == mem[..]
    modifies mem
    ensures now == mem[..] && IsMove(m, now, d, s, 32)
  {
    var w0 := ReadWord(mem, s, m);
    var w1 := ReadWord(mem, s + 8, m);
    var w2 := ReadWord(mem, s + 16, m);
    var w3 := ReadWord(mem, s + 24, m);
    ghost var m0 := WriteWord(mem, d, w0, m);
    ghost var m1 := WriteWord(mem, d + 8, w1, m0);
    ghost var m2 := WriteWord(mem, d + 16, w2, m1);
    now := WriteWord(mem, d + 24, w3, m2);
    FourStores(m, m0, m1, m2, now, w0, w1, w2, w3, d, s);
  }

  method CopyWord(mem: array<Byte>, d: nat, s: nat, ghost m: seq<Byte>) returns (ghost now: seq<Byte>)
    requires d + 8 <= mem.Length && s + 8 <= mem.Length && m == mem[..]
    modifies mem
    ensures now == mem[..] && IsMove(m, now, d, s, 8)
  {
    var w := ReadWord(mem, s, m);
    now := WriteWord(mem, d, w, m);
    OneStore(m, now, w, d, s);
  }

  method CopyByte(mem: array<Byte>, d: nat, s: nat, ghost m: seq<Byte>) returns (ghost now: seq<Byte>)
    requires d < mem.Length && s < mem.Length && m == mem[..]
    modifies mem
    ensures now == mem[..] && IsMove(m, now, d, s, 1)
  {
    mem[d] := mem[s];
    now := mem[..];
  }

  method MemCpy(mem: array<Byte>, dest: nat, src: nat, n: nat)
    requires dest + n <= mem.Length && src + n <= mem.Length
    requires ForwardSafe(dest, src, n)
    modifies mem
    ensures IsMove(old(mem[..]), mem[..], dest, src, n)
  {
    ghost var m, now, after := mem[..], mem[..], mem[..];
    var i := 0;
    while i + 32 <= n
      invariant 0 <= i <= n && now == mem[..] && IsMove(m, now, dest, src, i)
    {
      after := CopyBlock(mem, dest + i, src + i, now);
      ForwardStep(m, now, after, dest, src, n, i, 32);
      i, now := i + 32, after;
    }
    while i + 8 <= n
      invariant 0 <= i <= n && now == mem[..] && IsMove(m, now, dest, src, i)
    {
      after := CopyWord(mem, dest + i, src + i, now);
      ForwardStep(m, now, after, dest, src, n, i, 8);
      i, now := i + 8, after;
    }
    while i < n
      invariant 0 <= i <= n && now == mem[..] && IsMove(m, now, dest, src, i)
    {
      after := CopyByte(mem, dest + i, src + i, now);
      ForwardStep(m, now, after, dest, src, n, i, 1);
      i, now := i + 1, after;
    }
  }

  /** Simultaneous copy for every length and every overlap. */
  method MemMove(mem: array<Byte>, dest: nat, src: nat, n: nat)
    requires dest + n <= mem.Length && src + n <= mem.Length
    modifies mem
    ensures IsMove(old(mem[..]), mem[..], dest, src, n)
  {
    if dest <= src {
      MemCpy(mem, dest, src, n);
    } else {
      ghost var m, now, after := mem[..], mem[..], mem[..];
      var i := n;
      while i > 0
        invariant 0 <= i <= n
        invariant now == mem[..] && IsMove(m, now, dest + i, src + i, n - i)
      {
        i := i - 1;
        after := CopyByte(mem, dest + i, src + i, now);
        BackwardStep(m, now, after, dest, src, n, i);
        now := after;
      }
    }
  }
}
