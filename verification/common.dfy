/** Small things several models share. */
module Common {

  datatype Option<T> = None | Some(value: T)

  const MAX_CPUS: nat := 8

  // Sizes of the page pools, and the 4 KB pages in a 2 MB one.
  const PAGE_CACHE_SIZE: nat := 64
  const PREZEROED_4K_POOL_SIZE: nat := 512
  const PREZEROED_HUGE_POOL_SIZE: nat := 8
  const HUGE_PAGES: nat := 512

  function Min(a: nat, b: nat): nat { if a < b then a else b }

  function Below(n: nat): (r: set<nat>)
    ensures |r| == n && forall x :: x in r <==> 0 <= x < n
  {
    if n == 0 then {} else Below(n - 1) + {n - 1}
  }

  lemma SubsetSize<T>(a: set<T>, b: set<T>)
    requires a <= b
    ensures |a| <= |b|
  {
    assert b == a + (b - a);
  }

  lemma MulMono(m: nat, a: int, b: int)
    requires a <= b
    ensures m * a <= m * b
  {
  }

  lemma DivUnique(x: nat, m: nat, q: nat, r: nat)
    requires m > 0 && x == m * q + r && r < m
    ensures x / m == q && x % m == r
  {
    var d := x / m;
    assert x == m * d + x % m;
    if d < q { MulMono(m, d + 1, q); }
    if d > q { MulMono(m, q + 1, d); }
  }

  lemma Regroup<T>(a: seq<T>, b: seq<T>, c: seq<T>)
    ensures a + b + c == a + (b + c)
  {
  }
}
