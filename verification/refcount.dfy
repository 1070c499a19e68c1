/** Reference counts of data pages and page-table pages: the array and its operations. */
module RefCount {
  import opened Common

  const MAX_PAGES: nat := 1024 * 1024
  const KERNEL_IMAGE: nat := 0xffff

  /** 16-bit wrap-around of `fetch_add(1)` and `fetch_sub(1)`. */
  function Up(c: nat): nat { (c + 1) % 0x1_0000 }

  function Down(c: nat): nat { (c + 0xffff) % 0x1_0000 }

  function HugeUp(counts: seq<nat>, base: nat, n: nat): (r: seq<nat>)
    ensures |r| == |counts|
  {
    if n == 0 then counts
    else
      var c := HugeUp(counts, base, n - 1);
      var i := base + n - 1;
      if i < |c| then c[i := Up(c[i])] else c
  }

  lemma {:induction false} HugeUpAt(counts: seq<nat>, base: nat, n: nat)
    ensures forall k :: 0 <= k < |counts| ==>
              HugeUp(counts, base, n)[k] == if base <= k < base + n then Up(counts[k]) else counts[k]
  {
    if n > 0 {
      HugeUpAt(counts, base, n - 1);
    }
  }

  /** `page_ref_inc_huge` does not look for the sentinel.  It keeps every kernel-image mark exactly
      when no sub-page of the huge page carries one; a marked sub-page wraps to zero. */
  lemma HugeIncKeepsMarksIffNoneInside(counts: seq<nat>, base: nat)
    ensures (forall k :: 0 <= k < |counts| && counts[k] == KERNEL_IMAGE ==>
                         HugeUp(counts, base, HUGE_PAGES)[k] == KERNEL_IMAGE)
            <==> (forall k :: base <= k < base + HUGE_PAGES && k < |counts| ==> counts[k] != KERNEL_IMAGE)
    ensures forall k :: base <= k < base + HUGE_PAGES && k < |counts| && counts[k] == KERNEL_IMAGE ==>
              HugeUp(counts, base, HUGE_PAGES)[k] == 0
  {
    HugeUpAt(counts, base, HUGE_PAGES);
  }

  class Counts {
    const counts: array<nat>

    ghost predicate Valid()
      reads this, counts
    {
      counts.Length == MAX_PAGES && forall i :: 0 <= i < MAX_PAGES ==> counts[i] < 0x1_0000
    }

    constructor ()
      ensures Valid() && fresh(counts) && forall i :: 0 <= i < MAX_PAGES ==> counts[i] == 0
    {
      counts := new nat[MAX_PAGES](_ => 0);
    }

    method Init(idx: nat, value: nat)
      requires Valid() && value < 0x1_0000
      modifies counts
      ensures Valid()
      ensures counts[..] == if idx < MAX_PAGES then old(counts[..])[idx := value] else old(counts[..])
    {
      if idx < MAX_PAGES {
        counts[idx] := value;
      }
    }

    method Inc(idx: nat)
      requires Valid()
      modifies counts
      ensures Valid()
      ensures counts[..] == if idx < MAX_PAGES && old(counts[..])[idx] != KERNEL_IMAGE
                            then old(counts[..])[idx := Up(old(counts[..])[idx])] else old(counts[..])
    {
      if idx < MAX_PAGES {
        if counts[idx] == KERNEL_IMAGE { return; }
        counts[idx] := Up(counts[idx]);
      }
    }

    /** `free` tells the caller to free the page. */
    method Dec(idx: nat) returns (free: bool)
      requires Valid()
      modifies counts
      ensures Valid()
      ensures counts[..] == if idx < MAX_PAGES && old(counts[..])[idx] != KERNEL_IMAGE
                            then old(counts[..])[idx := Down(old(counts[..])[idx])] else old(counts[..])
      ensures free <==> idx >= MAX_PAGES || old(counts[..])[idx] == 1
    {
      if idx < MAX_PAGES {
        if counts[idx] == KERNEL_IMAGE { return false; }
        var prev := counts[idx];
        counts[idx] := Down(prev);
        return prev == 1;
      }
      return true;
    }

    method IncHuge(base: nat)
      requires Valid()
      modifies counts
      ensures Valid()
      ensures counts[..] == HugeUp(old(counts[..]), base, HUGE_PAGES)
    {
      for i := 0 to HUGE_PAGES
        invariant Valid() && counts[..] == HugeUp(old(counts[..]), base, i)
      {
        var idx := base + i;
        if idx < MAX_PAGES {
          counts[idx] := Up(counts[idx]);
        }
      }
    }
  }
}
