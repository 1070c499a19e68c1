/** Sets of free buddy blocks: splitting, merging, and why a maximal set finds every free block. */
module BuddyBlocks {
  import opened Common
  import opened Powers

  const MAX_ORDER: nat := 10

  /** `2^order` pages from page `base`. */
  datatype Block = Block(base: nat, order: nat) {
    function Size(): nat { Pow2(order) }
    function End(): nat { base + Size() }
    predicate Has(x: int) { base <= x < End() }
    predicate Aligned() { base % Size() == 0 }
  }

  /** The other half of the block one order up: the address with bit `order` flipped. */
  function Buddy(b: Block): Block
    requires b.Aligned()
  {
    if b.base / b.Size() % 2 == 0 then Block(b.End(), b.order)
    else
      DivMod(b.base, b.Size());
      Block(b.base - b.Size(), b.order)
  }

  function Lower(b: Block): Block
    requires b.order > 0
  {
    Block(b.base, b.order - 1)
  }

  function Upper(b: Block): Block
    requires b.order > 0
  {
    Block(b.base + Pow2(b.order - 1), b.order - 1)
  }

  function Merged(b: Block): Block
    requires b.Aligned()
  {
    Block(if Buddy(b).base < b.base then Buddy(b).base else b.base, b.order + 1)
  }

  lemma DivMod(x: nat, m: nat)
    requires m > 0
    ensures x == m * (x / m) + x % m
    ensures x / m > 0 ==> x >= m
  {
  }

  lemma EvenCell(x: nat, m: nat)
    requires m > 0 && x % (2 * m) == 0
    ensures x % m == 0 && x / m % 2 == 0
    ensures (x + m) % m == 0 && (x + m) / m % 2 == 1
  {
    var q := x / (2 * m);
    DivMod(x, 2 * m);
    MulAssoc(m, 2, q);
    assert x == m * (2 * q);
    DivUnique(x, m, 2 * q, 0);
    assert m * (2 * q + 1) == m * (2 * q) + m;
    DivUnique(x + m, m, 2 * q + 1, 0);
  }

  lemma PairedCell(x: nat, m: nat)
    requires m > 0 && x % m == 0
    ensures x / m % 2 == 0 ==> x % (2 * m) == 0
    ensures x / m % 2 == 1 ==> x >= m && (x - m) % (2 * m) == 0
  {
    var q := x / m;
    var h := q / 2;
    DivMod(x, m);
    MulAssoc(m, 2, h);
    if q % 2 == 0 {
      assert x == (2 * m) * h;
      DivUnique(x, 2 * m, h, 0);
    } else {
      assert m * (2 * h + 1) == m * (2 * h) + m;
      assert x - m == (2 * m) * h;
      DivUnique(x - m, 2 * m, h, 0);
    }
  }

  lemma MulAssoc(a: nat, b: nat, c: nat)
    ensures (a * b) * c == a * (b * c)
  {
  }

  /** The two halves of an aligned block are aligned and each other's buddies. */
  lemma HalvesAreBuddies(b: Block)
    requires b.Aligned() && b.order > 0
    ensures Lower(b).Aligned() && Upper(b).Aligned()
    ensures Buddy(Lower(b)) == Upper(b) && Buddy(Upper(b)) == Lower(b)
    ensures Merged(Lower(b)) == b && Merged(Upper(b)) == b
  {
    EvenCell(b.base, Pow2(b.order - 1));
  }

  lemma MergedIsAligned(b: Block)
    requires b.Aligned()
    ensures Merged(b).Aligned()
    ensures b == Lower(Merged(b)) || b == Upper(Merged(b))
  {
    PairedCell(b.base, b.Size());
  }

  /** A block and its buddy are the two halves of their aligned merge. */
  lemma MergeUndoesSplit(b: Block)
    requires b.Aligned()
    ensures Buddy(b).Aligned() && Buddy(Buddy(b)) == b
    ensures Merged(b).Aligned()
    ensures {b, Buddy(b)} == {Lower(Merged(b)), Upper(Merged(b))}
  {
    MergedIsAligned(b);
    HalvesAreBuddies(Merged(b));
  }

  // ---- Sets of blocks inside one zone [lo, hi) ----

  ghost predicate AllAligned(s: set<Block>) {
    forall b :: b in s ==> b.Aligned()
  }

  ghost predicate Inside(s: set<Block>, lo: nat, hi: nat) {
    forall b :: b in s ==> b.order <= MAX_ORDER && lo <= b.base && b.End() <= hi
  }

  ghost predicate Apart(s: set<Block>) {
    forall a, b :: a in s && b in s && a != b ==> a.End() <= b.base || b.End() <= a.base
  }

  /** The blocks of a zone's free lists: aligned, inside the zone, disjoint. */
  ghost predicate Tiling(s: set<Block>, lo: nat, hi: nat) {
    AllAligned(s) && Inside(s, lo, hi) && Apart(s)
  }

  /** No two free buddies: they would have been merged. */
  ghost predicate Maximal(s: set<Block>) {
    forall b :: b in s && b.Aligned() && b.order < MAX_ORDER ==> Buddy(b) !in s
  }

  ghost predicate Covered(s: set<Block>, x: int) {
    exists b :: b in s && b.Has(x)
  }

  lemma CoverUnion(s: set<Block>, a: set<Block>, x: int)
    ensures Covered(s + a, x) <==> Covered(s, x) || Covered(a, x)
  {
    if c :| c in s && c.Has(x) { assert c in s + a; }
    if c :| c in a && c.Has(x) { assert c in s + a; }
  }

  lemma CoverOne(s: set<Block>, b: Block, x: int)
    ensures Covered(s + {b}, x) <==> Covered(s, x) || b.Has(x)
  {
    CoverUnion(s, {b}, x);
    assert b in {b};
  }

  lemma HalvesApart(s: set<Block>, whole: Block, low: Block, up: Block)
    requires low.base == whole.base && low.End() == up.base && up.End() == whole.End()
    requires whole !in s && Apart(s + {whole})
    ensures Apart(s + {up} + {low}) && forall b :: b in s ==> b.base != up.base && b.base != low.base
  {
    forall b | b in s
      ensures b.End() <= whole.base || whole.End() <= b.base
    {
      assert b in s + {whole} && whole in s + {whole};
    }
    assert forall b, c :: b in s && c in s ==> b in s + {whole} && c in s + {whole};
  }

  lemma WholeApart(s: set<Block>, whole: Block, low: Block, up: Block)
    requires low.base == whole.base && low.End() == up.base && up.End() == whole.End()
    requires low !in s && up !in s && Apart(s + {up} + {low})
    ensures Apart(s + {whole})
  {
    var t := s + {up} + {low};
    forall b | b in s
      ensures b.End() <= whole.base || whole.End() <= b.base
    {
      assert b in t && low in t && up in t;
      assert b.End() <= low.base || low.End() <= b.base;
      assert b.End() <= up.base || up.End() <= b.base;
    }
    assert forall b, c :: b in s && c in s ==> b in t && c in t;
  }

  /** Replacing one block by two adjacent ones that fill the same pages, or back. */
  lemma HalvesTile(s: set<Block>, whole: Block, low: Block, up: Block)
    requires low.base == whole.base && low.End() == up.base && up.End() == whole.End()
    ensures whole !in s && Apart(s + {whole}) ==>
              Apart(s + {up} + {low}) && forall b :: b in s ==> b.base != up.base && b.base != low.base
    ensures low !in s && up !in s && Apart(s + {up} + {low}) ==> Apart(s + {whole})
    ensures forall x :: Covered(s + {up} + {low}, x) <==> Covered(s + {whole}, x)
  {
    if whole !in s && Apart(s + {whole}) {
      HalvesApart(s, whole, low, up);
    }
    if low !in s && up !in s && Apart(s + {up} + {low}) {
      WholeApart(s, whole, low, up);
    }
    forall x ensures Covered(s + {up} + {low}, x) <==> Covered(s + {whole}, x) {
      CoverOne(s + {up}, low, x);
      CoverOne(s, up, x);
      CoverOne(s, whole, x);
    }
  }

  /** Listing a block whose buddy is not listed keeps the set maximal. */
  lemma ListStep(s: set<Block>, cur: Block)
    requires cur.Aligned() && AllAligned(s) && Maximal(s)
    requires cur.order < MAX_ORDER ==> Buddy(cur) !in s && Buddy(cur) != cur
    ensures Maximal(s + {cur})
  {
    forall b | b in s + {cur} && b.Aligned() && b.order < MAX_ORDER ensures Buddy(b) !in s + {cur} {
      MergeUndoesSplit(b);
    }
  }

  /** Splitting a block that is not listed: its upper half gets listed, the lower half stays out. */
  lemma SplitStep(s: set<Block>, cur: Block, lo: nat, hi: nat)
    requires cur !in s && cur.order > 0 && Tiling(s + {cur}, lo, hi) && Maximal(s)
    ensures var up, low := Upper(cur), Lower(cur);
            && low !in s + {up} && (forall b :: b in s ==> b.base != up.base)
            && Tiling(s + {up} + {low}, lo, hi) && Maximal(s + {up})
            && (forall x :: Covered(s + {up} + {low}, x) <==> Covered(s + {cur}, x))
  {
    var up, low := Upper(cur), Lower(cur);
    assert cur in s + {cur};
    HalvesAreBuddies(cur);
    HalvesTile(s, cur, low, up);
    assert forall b :: b in s ==> b in s + {cur};
    ListStep(s, up);
  }

  /** Merging a block that is not listed with its listed buddy. */
  lemma MergeStep(s: set<Block>, cur: Block, lo: nat, hi: nat)
    requires cur !in s && cur.Aligned() && Buddy(cur) in s && cur.order < MAX_ORDER
    requires Tiling(s + {cur}, lo, hi)
    ensures var s', m := s - {Buddy(cur)}, Merged(cur);
            && m !in s' && Tiling(s' + {m}, lo, hi)
            && (forall x :: Covered(s' + {m}, x) <==> Covered(s + {cur}, x))
  {
    var other, m := Buddy(cur), Merged(cur);
    var s' := s - {other};
    var low, up := Lower(m), Upper(m);
    MergeUndoesSplit(cur);
    assert low in {cur, other} && up in {cur, other} && cur in {low, up};
    assert s' + {up} + {low} == s + {cur};
    HalvesTile(s', m, low, up);
    assert low in s + {cur} && up in s + {cur};
    assert m.order != low.order;
    assert forall b :: b in s' ==> b in s + {cur};
  }

  /** Completeness of a maximal set: an aligned block all of whose pages are free lies inside a
      listed block.  Without maximality two free halves could hide a free whole. */
  lemma {:induction false} FreeBlockIsListed(s: set<Block>, lo: nat, hi: nat, want: Block)
    requires Tiling(s, lo, hi) && Maximal(s)
    requires want.Aligned() && want.order <= MAX_ORDER
    requires forall x :: want.Has(x) ==> Covered(s, x)
    ensures exists b :: b in s && Contains(b, want)
    decreases want.order
  {
    if want.order == 0 {
      assert want.Has(want.base);
      var b :| b in s && b.Has(want.base);
      assert Contains(b, want);
    } else {
      var low, up := Lower(want), Upper(want);
      HalvesAreBuddies(want);
      assert forall x :: low.Has(x) || up.Has(x) ==> want.Has(x);
      FreeBlockIsListed(s, lo, hi, low);
      FreeBlockIsListed(s, lo, hi, up);
      var bl :| bl in s && Contains(bl, low);
      var bu :| bu in s && Contains(bu, up);
      HalvesListed(s, want, bl, bu);
    }
  }

  predicate Contains(big: Block, small: Block) {
    big.order >= small.order && big.base <= small.base && small.End() <= big.End()
  }

  lemma HalvesListed(s: set<Block>, want: Block, bl: Block, bu: Block)
    requires AllAligned(s) && Maximal(s) && want.Aligned() && 0 < want.order <= MAX_ORDER
    requires bl in s && Contains(bl, Lower(want)) && bu in s && Contains(bu, Upper(want))
    ensures exists b :: b in s && Contains(b, want)
  {
    var low, up := Lower(want), Upper(want);
    HalvesAreBuddies(want);
    if bl.order > low.order {
      BiggerContainsMerge(bl, low);
      assert Contains(bl, want);
    } else if bu.order > up.order {
      BiggerContainsMerge(bu, up);
      assert Contains(bu, want);
    } else {
      SameSizeContains(bl, low);
      SameSizeContains(bu, up);
      NotBothListed(s, low);
    }
  }

  lemma SameSizeContains(big: Block, small: Block)
    requires Contains(big, small) && big.order == small.order
    ensures big == small
  {
  }

  lemma NotBothListed(s: set<Block>, b: Block)
    requires Maximal(s) && b.Aligned() && b.order < MAX_ORDER
    ensures !(b in s && Buddy(b) in s)
  {
  }

  lemma OrderGap(big: nat, small: nat)
    requires big > small
    ensures Pow2(big) == Pow2(small + 1) * Pow2(big - small - 1)
  {
    Pow2Adds(small + 1, big - small - 1);
  }

  lemma CoarseGrid(x: nat, w: nat, k: nat) returns (q: nat)
    requires w > 0 && k > 0 && x % (w * k) == 0
    ensures x == w * q
  {
    DivMod(x, w * k);
    q := k * (x / (w * k));
    MulAssoc(w, k, x / (w * k));
  }

  /** An aligned block that contains a smaller aligned block contains that block's merge. */
  lemma BiggerContainsMerge(big: Block, half: Block)
    requires big.Aligned() && half.Aligned() && big.order > half.order && Contains(big, half)
    ensures Contains(big, Merged(half))
  {
    var mid := Merged(half);
    MergedIsAligned(half);
    OrderGap(big.order, half.order);
    GridBlocks(big.base, mid.base, mid.Size(), Pow2(big.order - half.order - 1), half.base, half.Size());
  }

  lemma GridBlocks(big: nat, mid: nat, w: nat, k: nat, half: nat, h: nat)
    requires w > 0 && k > 0 && h > 0 && big % (w * k) == 0 && mid % w == 0
    requires mid <= half && half + h <= mid + w && big <= half && half + h <= big + w * k
    ensures big <= mid && mid + w <= big + w * k
  {
    var bq := CoarseGrid(big, w, k);
    DivMod(mid, w);
    GridContains(w, bq, k, mid / w);
  }

  /** On a grid of step `w`, a cell that meets the interval `[lo, lo + n)` of cells lies in it. */
  lemma GridContains(w: nat, lo: nat, n: nat, cell: nat)
    requires w > 0
    requires w * cell < w * lo + w * n && w * lo < w * cell + w
    ensures w * lo <= w * cell && w * cell + w <= w * lo + w * n
  {
    if cell < lo { MulMono(w, cell + 1, lo); }
    if cell >= lo + n { MulMono(w, lo + n, cell); }
    MulMono(w, lo, cell);
    MulMono(w, cell + 1, lo + n);
  }
}
