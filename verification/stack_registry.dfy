/** The registry of kernel-stack pages: 256 slots, 0 for a free one. */
module StackRegistry {

  const REGISTRY_SIZE: nat := 256

  type Slots = seq<nat>

  function FirstIndex(r: Slots, v: nat): (i: nat)
    ensures i <= |r|
    ensures forall j :: 0 <= j < i ==> r[j] != v
    ensures i < |r| ==> r[i] == v
  {
    if r == [] || r[0] == v then 0 else 1 + FirstIndex(r[1..], v)
  }

  /** Put `page` into the first free slot; nothing happens when there is none. */
  function Put(r: Slots, page: nat): Slots {
    var i := FirstIndex(r, 0);
    if i < |r| then r[i := page] else r
  }

  /** Free the first slot that holds `page`. */
  function Clear(r: Slots, page: nat): Slots {
    var i := FirstIndex(r, page);
    if i < |r| then r[i := 0] else r
  }

  function PutRange(r: Slots, base: nat, num: nat): Slots {
    if num == 0 then r else Put(PutRange(r, base, num - 1), base + num - 1)
  }

  function ClearRange(r: Slots, base: nat, num: nat): Slots {
    if num == 0 then r else Clear(ClearRange(r, base, num - 1), base + num - 1)
  }

  /** The pages `is_stack_paddr` answers yes for, page 0 aside. */
  ghost function Entries(r: Slots): set<nat> {
    set i | 0 <= i < |r| && r[i] != 0 :: r[i]
  }

  ghost function FreeSlots(r: Slots): set<nat> {
    set i | 0 <= i < |r| && r[i] == 0
  }

  predicate Distinct(r: Slots) {
    forall i, j :: 0 <= i < j < |r| && r[i] != 0 ==> r[i] != r[j]
  }

  predicate InRange(p: int, base: nat, num: nat) { base <= p < base + num }

  ghost function Range(base: nat, num: nat): set<nat> {
    set p | 0 <= p < base + num && InRange(p, base, num)
  }

  lemma PutEffect(r: Slots, page: nat)
    requires page > 0 && Distinct(r) && page !in Entries(r)
    ensures |Put(r, page)| == |r| && Distinct(Put(r, page))
    ensures Entries(Put(r, page)) == if FreeSlots(r) == {} then Entries(r) else Entries(r) + {page}
    ensures FreeSlots(r) != {} ==> |FreeSlots(Put(r, page))| == |FreeSlots(r)| - 1
  {
    var i := FirstIndex(r, 0);
    var r' := Put(r, page);
    if i < |r| {
      assert i in FreeSlots(r);
      assert FreeSlots(r') == FreeSlots(r) - {i};
      forall p | p in Entries(r) + {page} ensures p in Entries(r') {
        if p == page {
          assert r'[i] == page;
        } else {
          var k :| 0 <= k < |r| && r[k] == p;
          assert r'[k] == p;
        }
      }
    }
  }

  lemma ClearEffect(r: Slots, page: nat)
    requires page > 0 && Distinct(r)
    ensures |Clear(r, page)| == |r| && Distinct(Clear(r, page))
    ensures Entries(Clear(r, page)) == Entries(r) - {page}
  {
    var i := FirstIndex(r, page);
    var r' := Clear(r, page);
    forall p | p in Entries(r) - {page} ensures p in Entries(r') {
      var k :| 0 <= k < |r| && r[k] == p;
      assert r'[k] == p;
    }
    if page in Entries(r) {
      var k :| 0 <= k < |r| && r[k] == page;
      assert i == k;
    }
  }

  lemma RangeGrows(base: nat, num: nat)
    requires num > 0
    ensures Range(base, num) == Range(base, num - 1) + {base + num - 1} && base + num - 1 !in Range(base, num - 1)
  {
  }

  /** One more page, seen only through the sets it changes. */
  lemma OneMore(e: set<nat>, mid: set<nat>, last: set<nat>, range: set<nat>, page: nat, full: bool)
    requires e <= mid <= e + range && last == if full then mid else mid + {page}
    ensures e <= last <= e + (range + {page})
    ensures !full && mid == e + range ==> last == e + (range + {page})
  {
  }

  /** Registering a stack adds pages of that stack only, and all of them when the slots suffice. */
  lemma {:induction false} RegisterEffect(r: Slots, base: nat, num: nat)
    requires base > 0 && Distinct(r) && Entries(r) !! Range(base, num)
    ensures var r' := PutRange(r, base, num);
            && |r'| == |r| && Distinct(r')
            && Entries(r) <= Entries(r') <= Entries(r) + Range(base, num)
            && (|FreeSlots(r)| >= num ==>
                  Entries(r') == Entries(r) + Range(base, num) && |FreeSlots(r')| == |FreeSlots(r)| - num)
  {
    if num > 0 {
      var mid, page := PutRange(r, base, num - 1), base + num - 1;
      RangeGrows(base, num);
      assert Entries(r) !! Range(base, num - 1);
      RegisterEffect(r, base, num - 1);
      assert page !in Entries(mid);
      PutEffect(mid, page);
      OneMore(Entries(r), Entries(mid), Entries(Put(mid, page)), Range(base, num - 1), page, FreeSlots(mid) == {});
      assert PutRange(r, base, num) == Put(mid, page);
    }
  }

  lemma OneLess(e: set<nat>, range: set<nat>, page: nat)
    ensures e - range - {page} == e - (range + {page})
  {
  }

  /** Unregistering a stack removes exactly its pages. */
  lemma {:induction false} UnregisterEffect(r: Slots, base: nat, num: nat)
    requires base > 0 && Distinct(r)
    ensures var r' := ClearRange(r, base, num);
            |r'| == |r| && Distinct(r') && Entries(r') == Entries(r) - Range(base, num)
  {
    if num > 0 {
      var mid, page := ClearRange(r, base, num - 1), base + num - 1;
      RangeGrows(base, num);
      UnregisterEffect(r, base, num - 1);
      ClearEffect(mid, page);
      OneLess(Entries(r), Range(base, num - 1), page);
      assert ClearRange(r, base, num) == Clear(mid, page);
    }
  }

  lemma {:induction false} EntriesAndFreeSlots(r: Slots)
    requires Distinct(r)
    ensures |Entries(r)| + |FreeSlots(r)| == |r|
  {
    if r != [] {
      var n := |r| - 1;
      var q := r[..n];
      EntriesAndFreeSlots(q);
      if r[n] == 0 {
        assert FreeSlots(r) == FreeSlots(q) + {n} && n !in FreeSlots(q);
        assert Entries(r) == Entries(q) by { SameEntries(r, q, n); }
      } else {
        assert FreeSlots(r) == FreeSlots(q);
        assert Entries(r) == Entries(q) + {r[n]} by { SameEntries(r, q, n); }
        assert r[n] !in Entries(q);
      }
    }
  }

  lemma SameEntries(r: Slots, q: Slots, n: nat)
    requires |r| == n + 1 && q == r[..n]
    ensures Entries(r) == if r[n] == 0 then Entries(q) else Entries(q) + {r[n]}
  {
    forall p | p in Entries(r) ensures p in Entries(q) || p == r[n] {
      var k :| 0 <= k < |r| && r[k] == p;
      if k < n { assert q[k] == p; }
    }
    forall p | p in Entries(q) ensures p in Entries(r) {
      var k :| 0 <= k < n && q[k] == p;
      assert r[k] == p;
    }
  }

  class Registry {
    const slots: array<nat>

    constructor ()
      ensures fresh(slots) && slots.Length == REGISTRY_SIZE && Entries(slots[..]) == {}
    {
      slots := new nat[REGISTRY_SIZE](_ => 0);
    }

    method Register(base: nat, num: nat)
      modifies slots
      ensures slots[..] == PutRange(old(slots[..]), base, num)
    {
      for i := 0 to num
        invariant slots[..] == PutRange(old(slots[..]), base, i)
      {
        Replace(0, base + i);
      }
    }

    method Unregister(base: nat, num: nat)
      modifies slots
      ensures slots[..] == ClearRange(old(slots[..]), base, num)
    {
      for i := 0 to num
        invariant slots[..] == ClearRange(old(slots[..]), base, i)
      {
        Replace(base + i, 0);
      }
    }

    /** The slot scan of both loops: overwrite the first slot that holds `from`. */
    method Replace(from: nat, to: nat)
      modifies slots
      ensures var r := old(slots[..]); var i := FirstIndex(r, from);
              slots[..] == if i < |r| then r[i := to] else r
    {
      ghost var r := slots[..];
      for k := 0 to slots.Length
        invariant slots[..] == r
        invariant forall j :: 0 <= j < k ==> slots[j] != from
      {
        if slots[k] == from {
          assert FirstIndex(r, from) == k by { assert r[k] == from; }
          slots[k] := to;
          return;
        }
      }
      assert forall j :: 0 <= j < |r| ==> r[j] != from;
    }

    method IsStackPage(page: nat) returns (found: bool)
      ensures page != 0 ==> (found <==> page in Entries(slots[..]))
      ensures page == 0 ==> (found <==> FreeSlots(slots[..]) != {})
    {
      ghost var r := slots[..];
      for k := 0 to slots.Length
        invariant forall j :: 0 <= j < k ==> slots[j] != page
      {
        if slots[k] == page {
          assert r[k] == page;
          assert page == 0 ==> k in FreeSlots(r);
          return true;
        }
      }
      assert forall j :: 0 <= j < |r| ==> r[j] != page;
      return false;
    }
  }
}
