/** The buddy allocator of one memory zone, with its allocation bitmap.  Addresses are page frame
    numbers; frame 0 cannot be managed because 0 ends a free list. */
module BuddyAllocator {
  import opened Common
  import opened Powers
  import opened BuddyBlocks
  import FreeLists

  class Zone {
    const lists: FreeLists.FreeLists
    const bitmap: array<bool>   // true = allocated, indexed by page
    const lo: nat
    const hi: nat

    /** Zone bounds and list representation. */
    ghost predicate Shape()
      reads this, lists, lists.heads, lists.link
    {
      && lists.Valid()
      && 0 < lo <= hi <= bitmap.Length && hi <= lists.link.Length
    }

    /** The listed blocks together with `extra` are exactly the pages the bitmap calls free. */
    ghost predicate Matches(extra: set<Block>)
      requires Shape()
      reads this, lists, lists.heads, lists.link, bitmap
    {
      && Tiling(lists.Blocks() + extra, lo, hi)
      && Maximal(lists.Blocks())
      && lists.Blocks() !! extra
      && forall x :: lo <= x < hi ==> (!bitmap[x] <==> Covered(lists.Blocks() + extra, x))
    }

    ghost predicate Valid()
      reads this, lists, lists.heads, lists.link, bitmap
    {
      Shape() && Matches({})
    }

    ghost predicate IsFree(x: int)
      reads this, bitmap
    {
      lo <= x < hi <= bitmap.Length && !bitmap[x]
    }

    predicate BitmapIsAllocated(x: nat)
      reads bitmap
    {
      x < bitmap.Length && bitmap[x]
    }

    /** Build the free lists from the largest aligned blocks that fit. */
    constructor (bitmap: array<bool>, lo: nat, hi: nat)
      requires 0 < lo <= hi <= bitmap.Length
      requires forall x :: lo <= x < hi ==> !bitmap[x]
      ensures Valid() && fresh(lists) && fresh(lists.heads) && fresh(lists.link)
      ensures this.bitmap == bitmap && this.lo == lo && this.hi == hi
      ensures forall x :: lo <= x < hi ==> IsFree(x)
    {
      this.bitmap, this.lo, this.hi := bitmap, lo, hi;
      this.lists := new FreeLists.FreeLists(hi);
      new;
      var at := lo;
      assert lists.Blocks() + {} == lists.Blocks();
      while at < hi
        invariant lo <= at <= hi && lists.Valid() && lists.link.Length == hi
        invariant fresh(lists) && fresh(lists.heads) && fresh(lists.link)
        invariant Tiling(lists.Blocks(), lo, at) && Maximal(lists.Blocks())
        invariant forall x :: lo <= x < at <==> Covered(lists.Blocks(), x)
        invariant forall b :: b in lists.Blocks() ==> Largest(b, hi)
      {
        var order := LargestOrder(at, hi);
        var cur := Block(at, order);
        GreedyStep(lists.Blocks(), cur, lo, hi);
        lists.PushFree(at, order);
        at := at + Pow2(order);
      }
      assert lists.Blocks() + {} == lists.Blocks();
    }

    /** `alloc_order`: pop a block of the order or split the smallest bigger one.  It fails
        exactly when no aligned block of that order is free. */
    method AllocOrder(target: nat) returns (r: Option<nat>)
      requires Valid() && target <= MAX_ORDER
      modifies lists, lists.heads, lists.link, bitmap
      ensures Valid()
      ensures r.Some? ==>
                var b := Block(r.value, target);
                && b.Aligned() && lo <= b.base && b.End() <= hi
                && (forall x :: b.Has(x) ==> old(IsFree(x)))
                && (forall x :: IsFree(x) <==> old(IsFree(x)) && !b.Has(x))
      ensures r.None? ==>
                && (forall x :: IsFree(x) <==> old(IsFree(x)))
                && (forall b: Block :: b.order == target && b.Aligned() ==> exists x :: b.Has(x) && !old(IsFree(x)))
      ensures forall x :: 0 <= x < bitmap.Length && !(lo <= x < hi) ==> bitmap[x] == old(bitmap[x])
    {
      ghost var s0 := lists.Blocks();
      assert s0 + {} == s0;
      var order := target;
      while order <= MAX_ORDER && lists.IsEmpty(order)
        invariant target <= order <= MAX_ORDER + 1
        invariant forall k :: target <= k < order ==> lists.IsEmpty(k)
      {
        order := order + 1;
      }
      if order > MAX_ORDER {
        forall b: Block | b.order == target && b.Aligned() ensures exists x :: b.Has(x) && !IsFree(x) {
          NoneIsListed(target, b);
        }
        return None;
      }
      var block := lists.PopFree(order);
      assert lists.Blocks() + {Block(block, order)} == s0;
      SplitDown(block, order, target);
      MarkAllocated(block, target);
      return Some(block);
    }

    lemma NoneIsListed(target: nat, want: Block)
      requires Valid() && target <= MAX_ORDER && want.order == target && want.Aligned()
      requires forall k :: target <= k <= MAX_ORDER ==> lists.IsEmpty(k)
      ensures exists x :: want.Has(x) && !IsFree(x)
    {
      var s := lists.Blocks();
      assert s + {} == s;
      if forall x :: want.Has(x) ==> IsFree(x) {
        FreeBlockIsListed(s, lo, hi, want);
        var b :| b in s && Contains(b, want);
        lists.EmptyMeansNoBlock(b.order);
      }
    }

    /** Put the upper halves back until the block has the target order. */
    method SplitDown(block: nat, from: nat, target: nat)
      requires Shape() && target <= from <= MAX_ORDER && Matches({Block(block, from)})
      modifies lists, lists.heads, lists.link
      ensures Shape() && Matches({Block(block, target)})
    {
      var order := from;
      while order > target
        invariant target <= order <= MAX_ORDER && Shape() && Matches({Block(block, order)})
      {
        ghost var s, cur := lists.Blocks(), Block(block, order);
        assert cur in s + {cur};
        SplitStep(s, cur, lo, hi);
        order := order - 1;
        var buddy := block + Pow2(order);
        lists.PushFree(buddy, order);
      }
    }

    method MarkAllocated(block: nat, order: nat)
      requires Shape() && Matches({Block(block, order)})
      modifies bitmap
      ensures Valid()
      ensures forall x :: 0 <= x < bitmap.Length ==> bitmap[x] == (old(bitmap[x]) || Block(block, order).Has(x))
      ensures Block(block, order).Aligned() && lo <= block && Block(block, order).End() <= hi
      ensures forall x :: Block(block, order).Has(x) ==> !old(bitmap[x])
    {
      ghost var s, cur := lists.Blocks(), Block(block, order);
      assert cur in s + {cur};
      forall x ensures Covered(s + {cur}, x) <==> Covered(s, x) || cur.Has(x) {
        CoverOne(s, cur, x);
      }
      for i := 0 to Pow2(order)
        invariant forall x :: 0 <= x < bitmap.Length ==> bitmap[x] == (old(bitmap[x]) || block <= x < block + i)
      {
        assert !BitmapIsAllocated(block + i) by { assert cur.Has(block + i); }
        bitmap[block + i] := true;
      }
      Detach(s, cur);
    }

    lemma Detach(s: set<Block>, cur: Block)
      requires Tiling(s + {cur}, lo, hi) && cur !in s
      ensures Tiling(s + {}, lo, hi)
      ensures s + {} == s
      ensures forall x :: cur.Has(x) ==> !Covered(s, x)
    {
      assert cur in s + {cur} && forall b :: b in s ==> b in s + {cur};
    }

    /** `free_coalesce`.  `ok` is false where the source asserts: some page was not allocated. */
    method FreeCoalesce(block: nat, order0: nat) returns (ok: bool)
      requires Valid() && order0 <= MAX_ORDER
      requires Block(block, order0).Aligned() && lo <= block && Block(block, order0).End() <= hi
      modifies lists, lists.heads, lists.link, bitmap
      ensures ok <==> forall x :: Block(block, order0).Has(x) ==> old(bitmap[x])
      ensures ok ==> Valid() && forall x :: IsFree(x) <==> old(IsFree(x)) || Block(block, order0).Has(x)
      ensures ok ==> forall x :: 0 <= x < bitmap.Length && !(lo <= x < hi) ==> bitmap[x] == old(bitmap[x])
    {
      ok := ClearAllocated(block, order0);
      if !ok { return; }
      var ptr, order := Coalesce(block, order0);
      ListLast(ptr, order);
    }

    /** Merge the block, which is in no list, with its buddy for as long as that one is free. */
    method Coalesce(block: nat, order0: nat) returns (ptr: nat, order: nat)
      requires Shape() && order0 <= MAX_ORDER && Matches({Block(block, order0)}) && Block(block, order0).Aligned()
      modifies lists, lists.heads, lists.link
      ensures Shape() && order <= MAX_ORDER && Matches({Block(ptr, order)}) && Block(ptr, order).Aligned()
      ensures order < MAX_ORDER ==> Buddy(Block(ptr, order)) !in lists.Blocks()
    {
      ptr, order := block, order0;
      while order < MAX_ORDER
        invariant Shape() && order <= MAX_ORDER && Matches({Block(ptr, order)}) && Block(ptr, order).Aligned()
      {
        var buddy := Buddy(Block(ptr, order)).base;
        var merged := TakeBuddy(ptr, order, buddy);
        if !merged {
          break;
        }
        ptr, order := if ptr < buddy then ptr else buddy, order + 1;
      }
    }

    /** One round of the coalescing loop: take the buddy off its list if it is there. */
    method TakeBuddy(ptr: nat, order: nat, buddy: nat) returns (merged: bool)
      requires Shape() && order < MAX_ORDER && Matches({Block(ptr, order)})
      requires Block(ptr, order).Aligned() && buddy == Buddy(Block(ptr, order)).base
      modifies lists, lists.heads, lists.link
      ensures Shape()
      ensures merged ==> Matches({Merged(Block(ptr, order))}) && Merged(Block(ptr, order)).Aligned()
      ensures !merged ==> Matches({Block(ptr, order)}) && Buddy(Block(ptr, order)) !in lists.Blocks()
    {
      ghost var s, cur := lists.Blocks(), Block(ptr, order);
      if buddy < lo || buddy >= hi {
        OutsideNotListed(s, cur, Buddy(cur));
        return false;
      }
      var busy := AnyAllocated(buddy, Pow2(order));
      if busy {
        BusyBuddyNotListed(cur);
        return false;
      }
      merged := lists.RemoveFromFreeList(buddy, order);
      assert Block(buddy, order) == Buddy(cur);
      if merged {
        MergeMatches(s, cur);
      } else {
        assert lists.Blocks() == s;
      }
    }

    lemma OutsideNotListed(s: set<Block>, cur: Block, b: Block)
      requires Inside(s + {cur}, lo, hi) && !(lo <= b.base < hi)
      ensures b !in s
    {
      assert b in s ==> b in s + {cur};
    }

    lemma MergeMatches(s: set<Block>, cur: Block)
      requires cur !in s && cur.Aligned() && Buddy(cur) in s && cur.order < MAX_ORDER
      requires Tiling(s + {cur}, lo, hi) && Maximal(s)
      ensures var s', m := s - {Buddy(cur)}, Merged(cur);
              && m.Aligned() && m !in s' && Tiling(s' + {m}, lo, hi) && Maximal(s')
              && (forall x :: Covered(s' + {m}, x) <==> Covered(s + {cur}, x))
    {
      MergeStep(s, cur, lo, hi);
      MergedIsAligned(cur);
    }

    method AnyAllocated(from: nat, count: nat) returns (busy: bool)
      ensures busy <==> exists x :: from <= x < from + count && BitmapIsAllocated(x)
    {
      for i := 0 to count
        invariant forall x :: from <= x < from + i ==> !BitmapIsAllocated(x)
      {
        if BitmapIsAllocated(from + i) { return true; }
      }
      return false;
    }

    lemma BusyBuddyNotListed(cur: Block)
      requires Shape() && Matches({cur}) && cur.Aligned()
      requires exists x :: Buddy(cur).base <= x < Buddy(cur).base + cur.Size() && BitmapIsAllocated(x)
      ensures Buddy(cur) !in lists.Blocks()
    {
      var x :| Buddy(cur).base <= x < Buddy(cur).base + cur.Size() && BitmapIsAllocated(x);
      var s := lists.Blocks() + {cur};
      assert Buddy(cur) in s ==> Covered(s, x) && lo <= x < hi by {
        assert Buddy(cur).Has(x);
      }
    }

    method ClearAllocated(block: nat, order: nat) returns (ok: bool)
      requires Valid() && order <= MAX_ORDER
      requires Block(block, order).Aligned() && lo <= block && Block(block, order).End() <= hi
      modifies bitmap
      ensures ok <==> forall x :: Block(block, order).Has(x) ==> old(bitmap[x])
      ensures ok ==> Shape() && Matches({Block(block, order)})
      ensures ok ==> forall x :: 0 <= x < bitmap.Length ==>
                                   bitmap[x] == (old(bitmap[x]) && !Block(block, order).Has(x))
    {
      ghost var s, cur := lists.Blocks(), Block(block, order);
      for i := 0 to Pow2(order)
        invariant forall x :: 0 <= x < bitmap.Length ==> bitmap[x] == (old(bitmap[x]) && !(block <= x < block + i))
        invariant forall x :: block <= x < block + i ==> old(bitmap[x])
      {
        if !BitmapIsAllocated(block + i) {
          assert cur.Has(block + i);
          return false;
        }
        bitmap[block + i] := false;
      }
      assert s + {} == s;
      assert forall x :: cur.Has(x) ==> !Covered(s, x);
      Attach(s, cur);
      forall x ensures Covered(s + {cur}, x) <==> Covered(s, x) || cur.Has(x) {
        CoverOne(s, cur, x);
      }
      return true;
    }

    lemma Attach(s: set<Block>, cur: Block)
      requires Tiling(s, lo, hi) && cur.Aligned() && cur.order <= MAX_ORDER && lo <= cur.base && cur.End() <= hi
      requires forall x :: cur.Has(x) ==> !Covered(s, x)
      ensures cur !in s && Tiling(s + {cur}, lo, hi)
    {
      assert cur.Has(cur.base);
      forall b | b in s ensures b.End() <= cur.base || cur.End() <= b.base {
        var x := if b.base < cur.base then cur.base else b.base;
        assert cur.Has(x) ==> !b.Has(x);
      }
    }

    /** The final push of the coalesced block. */
    method ListLast(ptr: nat, order: nat)
      requires Shape() && Matches({Block(ptr, order)}) && Block(ptr, order).Aligned() && order <= MAX_ORDER
      requires order < MAX_ORDER ==> Buddy(Block(ptr, order)) !in lists.Blocks()
      modifies lists, lists.heads, lists.link
      ensures Valid()
    {
      ghost var s, cur := lists.Blocks(), Block(ptr, order);
      MayList(s, cur);
      lists.PushFree(ptr, order);
      assert lists.Blocks() + {} == s + {cur};
    }

    lemma MayList(s: set<Block>, cur: Block)
      requires Tiling(s + {cur}, lo, hi) && cur !in s && Maximal(s)
      requires cur.Aligned() && (cur.order < MAX_ORDER ==> Buddy(cur) !in s)
      ensures Maximal(s + {cur}) && lo <= cur.base < hi && forall b :: b in s ==> b.base != cur.base
    {
      assert cur in s + {cur} && forall b :: b in s ==> b in s + {cur};
      ListStep(s, cur);
    }
  }

  // ---- The greedy construction ----

  predicate Fits(at: nat, order: nat, hi: nat) {
    at + Pow2(order) <= hi && at % Pow2(order) == 0
  }

  ghost predicate Largest(b: Block, hi: nat) {
    b.order < MAX_ORDER ==> !Fits(b.base, b.order + 1, hi)
  }

  method LargestOrder(at: nat, hi: nat) returns (order: nat)
    requires at < hi
    ensures order <= MAX_ORDER && Fits(at, order, hi) && Largest(Block(at, order), hi)
  {
    order := MAX_ORDER;
    while !Fits(at, order, hi)
      invariant order <= MAX_ORDER && Largest(Block(at, order), hi)
      decreases order
    {
      assert Pow2(0) == 1;
      order := order - 1;
    }
  }

  /** A lower buddy of a block that fits could itself have been taken one order bigger. */
  lemma LowerBuddyTooSmall(cur: Block, hi: nat)
    requires cur.order < MAX_ORDER && Fits(cur.base, cur.order, hi)
    ensures Buddy(cur).base < cur.base ==> !Largest(Buddy(cur), hi)
  {
    MergedIsAligned(cur);
  }

  /** Appending the largest fitting block keeps the listed blocks tiled, maximal and greedy. */
  lemma GreedyStep(s: set<Block>, cur: Block, lo: nat, hi: nat)
    requires Tiling(s, lo, cur.base) && Maximal(s) && lo <= cur.base
    requires forall x :: lo <= x < cur.base <==> Covered(s, x)
    requires forall b :: b in s ==> Largest(b, hi)
    requires cur.order <= MAX_ORDER && Fits(cur.base, cur.order, hi) && Largest(cur, hi)
    ensures Tiling(s + {cur}, lo, cur.End()) && Maximal(s + {cur})
    ensures forall x :: lo <= x < cur.End() <==> Covered(s + {cur}, x)
    ensures forall b :: b in s ==> b.base != cur.base
  {
    if cur.order < MAX_ORDER {
      LowerBuddyTooSmall(cur, hi);
    }
    ListStep(s, cur);
    forall x ensures Covered(s + {cur}, x) <==> Covered(s, x) || cur.Has(x) {
      CoverOne(s, cur, x);
    }
  }
}
