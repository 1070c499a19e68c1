/** The buddy allocator's intrusive free lists: one head per order, the link to the next free
    block in the first word of each free block, 0 for the end of a list. */
module FreeLists {
  import opened BuddyBlocks

  const ORDERS: nat := MAX_ORDER + 1

  function Nth(l: seq<nat>, i: nat): nat {
    if i < |l| then l[i] else 0
  }

  /** `l` is the list one meets when following the links from `head`. */
  ghost predicate Linked(head: nat, l: seq<nat>, mem: seq<nat>) {
    && head == Nth(l, 0)
    && (forall i :: 0 <= i < |l| ==> 0 < l[i] < |mem|)
    && (forall i :: 0 <= i < |l| ==> LinkAt(l, mem, i))
  }

  ghost predicate LinkAt(l: seq<nat>, mem: seq<nat>, i: nat)
    requires i < |l|
  {
    l[i] < |mem| && mem[l[i]] == Nth(l, i + 1)
  }

  ghost predicate Distinct(lists: seq<seq<nat>>) {
    forall o, i, q, j ::
      (0 <= o < |lists| && 0 <= q < |lists| && 0 <= i < |lists[o]| && 0 <= j < |lists[q]|) ==>
        (lists[o][i] == lists[q][j] ==> o == q && i == j)
  }

  ghost predicate Listed(lists: seq<seq<nat>>, b: Block) {
    b.order < |lists| && b.base in lists[b.order]
  }

  ghost function BlocksOf(lists: seq<seq<nat>>): set<Block> {
    set o, i | 0 <= o < |lists| && 0 <= i < |lists[o]| :: Block(lists[o][i], o)
  }

  lemma BlocksAreListed(lists: seq<seq<nat>>, b: Block)
    ensures b in BlocksOf(lists) <==> Listed(lists, b)
  {
    if Listed(lists, b) {
      var i :| 0 <= i < |lists[b.order]| && lists[b.order][i] == b.base;
      assert Block(lists[b.order][i], b.order) in BlocksOf(lists);
    }
  }

  lemma AllBlocksAreListed(lists: seq<seq<nat>>)
    ensures forall b :: b in BlocksOf(lists) <==> Listed(lists, b)
  {
    forall b ensures b in BlocksOf(lists) <==> Listed(lists, b) {
      BlocksAreListed(lists, b);
    }
  }

  lemma Pushing(lists: seq<seq<nat>>, o: nat, p: nat)
    requires o < |lists| && Distinct(lists) && forall b :: b in BlocksOf(lists) ==> b.base != p
    ensures var l' := lists[o := [p] + lists[o]];
            Distinct(l') && BlocksOf(l') == BlocksOf(lists) + {Block(p, o)}
    ensures forall q, i :: 0 <= q < |lists| && 0 <= i < |lists[q]| ==> lists[q][i] != p
  {
    var l' := lists[o := [p] + lists[o]];
    AllBlocksAreListed(lists);
    AllBlocksAreListed(l');
    forall q, i | 0 <= q < |lists| && 0 <= i < |lists[q]| ensures lists[q][i] != p {
      assert Listed(lists, Block(lists[q][i], q));
    }
    forall b ensures Listed(l', b) <==> Listed(lists, b) || b == Block(p, o) {
      if b.order == o {
        assert b.base in l'[o] <==> b.base == p || b.base in lists[o];
      }
    }
  }

  lemma Dropping(lists: seq<seq<nat>>, o: nat, k: nat)
    requires o < |lists| && k < |lists[o]| && Distinct(lists)
    ensures var l' := lists[o := lists[o][..k] + lists[o][k + 1..]];
            Distinct(l') && BlocksOf(l') == BlocksOf(lists) - {Block(lists[o][k], o)}
  {
    var old_ := lists[o];
    var new_ := old_[..k] + old_[k + 1..];
    var l' := lists[o := new_];
    AllBlocksAreListed(lists);
    AllBlocksAreListed(l');
    forall i | 0 <= i < |new_| ensures new_[i] == old_[if i < k then i else i + 1] {
    }
    forall b ensures Listed(l', b) <==> Listed(lists, b) && b != Block(old_[k], o) {
      if b.order == o {
        if b.base in old_ && b.base != old_[k] {
          var i :| 0 <= i < |old_| && old_[i] == b.base;
          assert new_[if i < k then i else i - 1] == b.base;
        }
      }
    }
  }

  /** The words in memory represent the lists. */
  ghost predicate Represents(heads: seq<nat>, mem: seq<nat>, lists: seq<seq<nat>>) {
    && |heads| == |lists| == ORDERS
    && Distinct(lists)
    && forall o :: 0 <= o < ORDERS ==> Linked(heads[o], lists[o], mem)
  }

  lemma UnlinkOne(head: nat, l: seq<nat>, mem: seq<nat>, k: nat)
    requires Linked(head, l, mem) && k < |l|
    requires forall i, j :: 0 <= i < j < |l| ==> l[i] != l[j]
    ensures k == 0 ==> Linked(mem[l[0]], l[..k] + l[k + 1..], mem)
    ensures k > 0 ==> Linked(head, l[..k] + l[k + 1..], mem[l[k - 1] := mem[l[k]]])
  {
    var l' := l[..k] + l[k + 1..];
    assert LinkAt(l, mem, k);
    if k == 0 {
      forall i | 0 <= i < |l'| ensures LinkAt(l', mem, i) {
        assert LinkAt(l, mem, i + 1);
      }
    } else {
      var mem' := mem[l[k - 1] := mem[l[k]]];
      assert LinkAt(l, mem, k - 1);
      forall i | 0 <= i < |l'| ensures LinkAt(l', mem', i) {
        assert LinkAt(l, mem, if i < k then i else i + 1);
      }
    }
  }

  lemma LinkedFrame(head: nat, l: seq<nat>, mem: seq<nat>, p: nat, v: nat)
    requires Linked(head, l, mem) && p < |mem| && p !in l
    ensures Linked(head, l, mem[p := v])
  {
    var mem' := mem[p := v];
    forall i | 0 <= i < |l| ensures LinkAt(l, mem', i) {
      assert LinkAt(l, mem, i);
    }
  }

  lemma LinkNew(head: nat, l: seq<nat>, mem: seq<nat>, p: nat)
    requires Linked(head, l, mem) && 0 < p < |mem| && p !in l
    ensures Linked(p, [p] + l, mem[p := head])
  {
    var l', mem' := [p] + l, mem[p := head];
    forall i | 0 <= i < |l'| ensures LinkAt(l', mem', i) {
      if i > 0 { assert LinkAt(l, mem, i - 1); }
    }
  }

  /** Linking a new first element into list `o`. */
  lemma Linking(heads: seq<nat>, mem: seq<nat>, lists: seq<seq<nat>>, o: nat, p: nat)
    requires Represents(heads, mem, lists) && o < ORDERS && 0 < p < |mem|
    requires forall b :: b in BlocksOf(lists) ==> b.base != p
    ensures Represents(heads[o := p], mem[p := heads[o]], lists[o := [p] + lists[o]])
  {
    Pushing(lists, o, p);
    LinkNew(heads[o], lists[o], mem, p);
    forall q | 0 <= q < ORDERS && q != o ensures Linked(heads[q], lists[q], mem[p := heads[o]]) {
      LinkedFrame(heads[q], lists[q], mem, p, heads[o]);
    }
  }

  /** Unlinking element `k` of list `o`: its predecessor, or the head, takes over its link. */
  lemma Unlinking(heads: seq<nat>, mem: seq<nat>, lists: seq<seq<nat>>, o: nat, k: nat)
    requires Represents(heads, mem, lists) && o < ORDERS && k < |lists[o]|
    ensures var l := lists[o];
            var l' := l[..k] + l[k + 1..];
            var rest := mem[l[k]];
            && (k == 0 ==> Represents(heads[o := rest], mem, lists[o := l']))
            && (k > 0 ==> Represents(heads, mem[l[k - 1] := rest], lists[o := l']))
  {
    var l := lists[o];
    Dropping(lists, o, k);
    UnlinkOne(heads[o], l, mem, k);
    if k > 0 {
      forall q | 0 <= q < ORDERS && q != o ensures Linked(heads[q], lists[q], mem[l[k - 1] := mem[l[k]]]) {
        assert l[k - 1] !in lists[q];
        LinkedFrame(heads[q], lists[q], mem, l[k - 1], mem[l[k]]);
      }
    }
  }

  class FreeLists {
    const heads: array<nat>
    const link: array<nat>
    ghost var lists: seq<seq<nat>>

    ghost predicate Valid()
      reads this, heads, link
    {
      heads != link && Represents(heads[..], link[..], lists)
    }

    ghost function Blocks(): set<Block>
      reads this
    {
      BlocksOf(lists)
    }

    /** Memory is `pages` page frames, the links are their first words. */
    constructor (pages: nat)
      ensures Valid() && fresh(heads) && fresh(link) && Blocks() == {} && link.Length == pages
    {
      heads := new nat[ORDERS](_ => 0);
      link := new nat[pages];
      lists := seq(ORDERS, _ => []);
    }

    predicate IsEmpty(o: nat)
      requires o < heads.Length
      reads this, heads
    {
      heads[o] == 0
    }

    lemma EmptyMeansNoBlock(o: nat)
      requires Valid() && o < ORDERS
      ensures IsEmpty(o) <==> forall b :: b in Blocks() ==> b.order != o
    {
      AllBlocksAreListed(lists);
      if !IsEmpty(o) {
        assert Listed(lists, Block(lists[o][0], o));
      }
    }

    method PushFree(p: nat, o: nat)
      requires Valid() && o < ORDERS && 0 < p < link.Length
      requires forall b :: b in Blocks() ==> b.base != p
      modifies this, heads, link
      ensures Valid() && Blocks() == old(Blocks()) + {Block(p, o)}
    {
      ghost var h: seq<nat>, m: seq<nat> := heads[..], link[..];
      Pushing(lists, o, p);
      Linking(h, m, lists, o, p);
      link[p] := heads[o];
      heads[o] := p;
      lists := lists[o := [p] + lists[o]];
      assert heads[..] == h[o := p] && link[..] == m[p := h[o]];
    }

    method PopFree(o: nat) returns (p: nat)
      requires Valid() && o < ORDERS && !IsEmpty(o)
      modifies this, heads
      ensures Valid() && Block(p, o) in old(Blocks()) && Blocks() == old(Blocks()) - {Block(p, o)}
      ensures 0 < p < link.Length
    {
      ghost var h, m, before := heads[..], link[..], lists;
      assert Linked(h[o], before[o], m);
      Dropping(before, o, 0);
      Unlinking(h, m, before, o, 0);
      p := heads[o];
      BlocksAreListed(before, Block(p, o));
      heads[o] := link[p];
      lists := before[o := before[o][..0] + before[o][1..]];
      assert heads[..] == h[o := m[p]] && link[..] == m;
    }

    method RemoveFromFreeList(target: nat, o: nat) returns (found: bool)
      requires Valid() && o < ORDERS
      modifies this, heads, link
      ensures Valid() && (found <==> Block(target, o) in old(Blocks()))
      ensures Blocks() == old(Blocks()) - {Block(target, o)}
    {
      var prev, current := 0, heads[o];
      ghost var h, m, before := heads[..], link[..], lists;
      ghost var l := before[o];
      ghost var k := 0;
      BlocksAreListed(before, Block(target, o));
      assert Linked(h[o], l, m);
      while current != 0
        invariant 0 <= k <= |l| && current == Nth(l, k) && lists == before
        invariant heads[..] == h && link[..] == m
        invariant prev == if k > 0 then l[k - 1] else 0
        invariant forall i :: 0 <= i < k ==> l[i] != target
        decreases |l| - k
      {
        if current == target {
          Dropping(before, o, k);
          Unlinking(h, m, before, o, k);
          var rest := link[current];
          if prev != 0 {
            link[prev] := rest;
            assert link[..] == m[prev := rest];
          } else {
            heads[o] := rest;
            assert heads[..] == h[o := rest];
          }
          lists := before[o := l[..k] + l[k + 1..]];
          return true;
        }
        assert LinkAt(l, m, k);
        prev, current, k := current, link[current], k + 1;
      }
      return false;
    }
  }
}
