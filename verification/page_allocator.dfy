/** The page allocator run on one CPU: the LIFO cache and the prezeroed pool over the buddy zones,
    updated in place, with the two hint counters.  No page is lost or duplicated, the counters are
    exact, and allocation fails only when there is nothing left to give. */
module PageAllocator {
  import opened Common

  /** `PageCache`, `Prezeroed4kPool` and `HugePagePool`: a fixed array used as a stack. */
  class PagePool {
    const pages: array<nat>
    var count: nat

    ghost predicate Valid()
      reads this
    {
      count <= pages.Length
    }

    ghost function Contents(): seq<nat>
      requires Valid()
      reads this, pages
    {
      pages[..count]
    }

    constructor (capacity: nat)
      ensures Valid() && fresh(pages) && pages.Length == capacity && Contents() == []
    {
      pages := new nat[capacity](_ => 0);
      count := 0;
    }

    method Pop() returns (r: Option<nat>)
      requires Valid()
      modifies this
      ensures Valid()
      ensures r.Some? <==> old(Contents()) != []
      ensures r.Some? ==> Contents() + [r.value] == old(Contents())
      ensures r.None? ==> Contents() == old(Contents())
    {
      if count > 0 {
        count := count - 1;
        return Some(pages[count]);
      }
      return None;
    }

    method Push(p: nat) returns (ok: bool)
      requires Valid()
      modifies this, pages
      ensures Valid()
      ensures ok <==> |old(Contents())| < pages.Length
      ensures Contents() == if ok then old(Contents()) + [p] else old(Contents())
    {
      if count < pages.Length {
        pages[count] := p;
        count := count + 1;
        return true;
      }
      return false;
    }
  }

  // ---- The abstract picture: where the free pages are ----

  /** `zones[k]` are the free pages of zone k; `buf` is a local buffer on its way to the caller. */
  datatype Pools = Pools(zones: seq<set<nat>>, buf: seq<nat>, cache: seq<nat>, prez: seq<nat>)

  datatype Place = Zone(k: nat) | Buffer(i: nat) | Cache(i: nat) | Prezeroed(i: nat)

  ghost predicate IsAt(v: Pools, p: nat, a: Place) {
    match a
    case Zone(k) => k < |v.zones| && p in v.zones[k]
    case Buffer(i) => i < |v.buf| && v.buf[i] == p
    case Cache(i) => i < |v.cache| && v.cache[i] == p
    case Prezeroed(i) => i < |v.prez| && v.prez[i] == p
  }

  ghost predicate Single(v: Pools) {
    forall p, a, b :: IsAt(v, p, a) && IsAt(v, p, b) ==> a == b
  }

  ghost predicate Has(v: Pools, p: nat) {
    exists a :: IsAt(v, p, a)
  }

  predicate Includes(range: (nat, nat), p: nat) {
    range.0 <= p < range.1
  }

  /** Every zone holds only pages of its own range. */
  ghost predicate Homed(zones: seq<set<nat>>, ranges: seq<(nat, nat)>) {
    |zones| == |ranges| && forall k, p :: 0 <= k < |zones| && p in zones[k] ==> Includes(ranges[k], p)
  }

  /** A zone is touched only when all zones before it are empty. */
  ghost predicate InOrder(was: seq<set<nat>>, now: seq<set<nat>>) {
    |was| == |now| && forall j, k :: 0 <= j < k < |now| && now[k] != was[k] ==> now[j] == {}
  }

  /** `w` holds the same pages as `v`, each still once. */
  ghost predicate Conserved(v: Pools, w: Pools) {
    (Single(v) ==> Single(w)) && forall p :: Has(v, p) <==> Has(w, p)
  }

  ghost predicate ZonesEmpty(v: Pools) {
    forall k :: 0 <= k < |v.zones| ==> v.zones[k] == {}
  }

  /** Moving one page from a zone to the end of the buffer. */
  lemma ZoneToBuffer(v: Pools, k: nat, p: nat)
    requires k < |v.zones| && p in v.zones[k]
    ensures Conserved(v, v.(zones := v.zones[k := v.zones[k] - {p}], buf := v.buf + [p]))
  {
    var w := v.(zones := v.zones[k := v.zones[k] - {p}], buf := v.buf + [p]);
    assert IsAt(v, p, Zone(k)) && IsAt(w, p, Buffer(|v.buf|));
    forall q, b | IsAt(w, q, b) ensures IsAt(v, q, if b == Buffer(|v.buf|) then Zone(k) else b) {
    }
    forall q, a | IsAt(v, q, a) ensures IsAt(w, q, if a == Zone(k) && q == p then Buffer(|v.buf|) else a) {
    }
  }

  /** Moving the last cached page to the end of the buffer. */
  lemma CacheToBuffer(v: Pools)
    requires v.cache != []
    ensures var n := |v.cache| - 1; Conserved(v, v.(cache := v.cache[..n], buf := v.buf + [v.cache[n]]))
  {
    var n := |v.cache| - 1;
    var w := v.(cache := v.cache[..n], buf := v.buf + [v.cache[n]]);
    forall q, b | IsAt(w, q, b) ensures IsAt(v, q, if b == Buffer(|v.buf|) then Cache(n) else b) {
    }
    forall q, a | IsAt(v, q, a) ensures IsAt(w, q, if a == Cache(n) then Buffer(|v.buf|) else a) {
    }
  }

  lemma PrezeroedToBuffer(v: Pools)
    requires v.prez != [] && v.buf == []
    ensures var n := |v.prez| - 1; Conserved(v, v.(prez := v.prez[..n], buf := [v.prez[n]]))
  {
    var n := |v.prez| - 1;
    var w := v.(prez := v.prez[..n], buf := [v.prez[n]]);
    forall q, b | IsAt(w, q, b) ensures IsAt(v, q, if b == Buffer(0) then Prezeroed(n) else b) {
    }
    forall q, a | IsAt(v, q, a) ensures IsAt(w, q, if a == Prezeroed(n) then Buffer(0) else a) {
    }
  }

  /** Moving the whole buffer behind the cached pages. */
  lemma BufferToCache(v: Pools)
    ensures Conserved(v, v.(cache := v.cache + v.buf, buf := []))
  {
    var n := |v.cache|;
    var w := v.(cache := v.cache + v.buf, buf := []);
    forall q, b | IsAt(w, q, b) ensures IsAt(v, q, if b.Cache? && b.i >= n then Buffer(b.i - n) else b) {
    }
    forall q, a | IsAt(v, q, a) ensures IsAt(w, q, if a.Buffer? then Cache(n + a.i) else a) {
    }
  }

  lemma BufferToPrezeroed(v: Pools)
    ensures Conserved(v, v.(prez := v.prez + v.buf, buf := []))
  {
    var n := |v.prez|;
    var w := v.(prez := v.prez + v.buf, buf := []);
    forall q, b | IsAt(w, q, b) ensures IsAt(v, q, if b.Prezeroed? && b.i >= n then Buffer(b.i - n) else b) {
    }
    forall q, a | IsAt(v, q, a) ensures IsAt(w, q, if a.Buffer? then Prezeroed(n + a.i) else a) {
    }
  }

  /** Giving one buffered page back to a zone. */
  lemma BufferToZone(v: Pools, k: nat)
    requires |v.buf| == 1 && k < |v.zones|
    ensures Conserved(v, v.(zones := v.zones[k := v.zones[k] + {v.buf[0]}], buf := []))
  {
    var w := v.(zones := v.zones[k := v.zones[k] + {v.buf[0]}], buf := []);
    forall q, b | IsAt(w, q, b)
      ensures IsAt(v, q, if b == Zone(k) && q !in v.zones[k] then Buffer(0) else b)
    {
    }
    forall q, a | IsAt(v, q, a) ensures IsAt(w, q, if a.Buffer? then Zone(k) else a) {
    }
  }

  lemma ConservedTransitive(u: Pools, v: Pools, w: Pools)
    requires Conserved(u, v) && Conserved(v, w)
    ensures Conserved(u, w)
  {
  }

  lemma BufferLeaves(v: Pools)
    requires Single(v)
    ensures Single(v.(buf := []))
    ensures forall i :: 0 <= i < |v.buf| ==> !Has(v.(buf := []), v.buf[i])
  {
    var w := v.(buf := []);
    assert forall p, a :: IsAt(w, p, a) ==> IsAt(v, p, a);
    forall i | 0 <= i < |v.buf| ensures !Has(w, v.buf[i]) {
      assert IsAt(v, v.buf[i], Buffer(i));
    }
  }

  // ---- The allocator ----

  /** The page came from the top of the prezeroed pool, and nothing else changed. */
  ghost predicate TookPrezeroed(v: Pools, w: Pools, r: Option<nat>) {
    v.prez != [] && r == Some(v.prez[|v.prez| - 1]) && w == v.(prez := v.prez[..|v.prez| - 1])
  }

  /** The page came from the top of the cache, and nothing else changed. */
  ghost predicate TookCached(v: Pools, w: Pools, r: Option<nat>) {
    v.cache != [] && r == Some(v.cache[|v.cache| - 1]) && w == v.(cache := v.cache[..|v.cache| - 1])
  }

  /** The last `n` cached pages, top first. */
  function FromTop(cache: seq<nat>, n: nat): (r: seq<nat>)
    requires n <= |cache|
    ensures |r| == n
  {
    seq(n, i requires 0 <= i < n => cache[|cache| - 1 - i])
  }

  class Allocator {
    /** Free pages of each zone.  A zone hands out any free page: the contract of a buddy zone. */
    var zones: seq<set<nat>>
    /** Page ranges of the zones. */
    const ranges: seq<(nat, nat)>
    const cache: PagePool
    const prez: PagePool
    var cacheCount: nat
    var prezCount: nat

    ghost function Repr(): set<object> {
      {this, cache, cache.pages, prez, prez.pages}
    }

    ghost predicate Shape()
      reads Repr()
    {
      && cache != prez && cache.pages != prez.pages
      && cache.Valid() && prez.Valid()
      && cache.pages.Length == PAGE_CACHE_SIZE && prez.pages.Length == PREZEROED_4K_POOL_SIZE
      && |zones| == |ranges| && Homed(zones, ranges)
    }

    ghost function View(buf: seq<nat>): Pools
      requires Shape()
      reads Repr()
    {
      Pools(zones, buf, cache.Contents(), prez.Contents())
    }

    /** Between two calls: no page in two places, both hint counters exact. */
    ghost predicate Valid()
      reads Repr()
    {
      && Shape() && Single(View([]))
      && cacheCount == cache.count && prezCount == prez.count
    }

    constructor (ranges: seq<(nat, nat)>, zones: seq<set<nat>>)
      requires Homed(zones, ranges)
      requires forall j, k, p :: 0 <= j < k < |zones| && p in zones[j] ==> p !in zones[k]
      ensures Valid() && fresh(Repr()) && this.zones == zones && this.ranges == ranges
      ensures View([]) == Pools(zones, [], [], [])
    {
      this.ranges, this.zones := ranges, zones;
      cache := new PagePool(PAGE_CACHE_SIZE);
      prez := new PagePool(PREZEROED_4K_POOL_SIZE);
      cacheCount, prezCount := 0, 0;
    }

    /** `zone.alloc_one()` over the zones in order, until `max` pages are in the buffer. */
    method TakeFromZones(buf: seq<nat>, max: nat) returns (out: seq<nat>)
      requires Shape() && |buf| <= max
      modifies this`zones
      ensures Shape() && buf <= out && |out| <= max
      ensures Conserved(old(View(buf)), View(out))
      ensures |out| < max ==> ZonesEmpty(View(out))
      ensures out == buf ==> zones == old(zones)
      ensures InOrder(old(zones), zones)
    {
      out := buf;
      var k := 0;
      while k < |zones|
        invariant 0 <= k <= |zones| == |ranges| && Shape() && buf <= out && |out| <= max
        invariant Conserved(old(View(buf)), View(out))
        invariant |out| < max ==> forall j :: 0 <= j < k ==> zones[j] == {}
        invariant out == buf ==> zones == old(zones)
        invariant |zones| == |old(zones)| && forall j :: k <= j < |zones| ==> zones[j] == old(zones)[j]
        invariant InOrder(old(zones), zones)
      {
        ghost var atZone := View(out);
        while |out| < max && zones[k] != {}
          invariant k < |zones| == |ranges| && Shape() && buf <= out && |out| <= max
          invariant Conserved(old(View(buf)), View(out))
          invariant forall j :: 0 <= j < |zones| && j != k ==> zones[j] == atZone.zones[j]
          invariant |zones| == |atZone.zones| && InOrder(old(zones), zones)
          invariant forall j :: k < j < |zones| ==> zones[j] == old(zones)[j]
          invariant |out| < max ==> forall j :: 0 <= j < k ==> zones[j] == {}
          invariant out == buf ==> zones == old(zones)
          decreases max - |out|
        {
          var p :| p in zones[k];
          ZoneToBuffer(View(out), k, p);
          ghost var before := View(out);
          zones := zones[k := zones[k] - {p}];
          out := out + [p];
          ConservedTransitive(old(View(buf)), before, View(out));
        }
        if |out| < max {
          assert forall j :: 0 <= j < k ==> atZone.zones[j] == {};
        }
        k := k + 1;
      }
    }

    /** `refill_page_cache`.  The push results are ignored, so pages beyond the cache's room would
        be lost; the contract says which ones arrive. */
    method RefillPageCache() returns (n: nat, ghost buf: seq<nat>)
      requires Shape()
      modifies this`zones, this`cacheCount, cache, cache.pages
      ensures Shape() && n == |buf| <= PAGE_CACHE_SIZE
      ensures n == 0 ==> ZonesEmpty(View([])) && View([]) == old(View([])) && cacheCount == old(cacheCount)
      ensures n > 0 ==> cacheCount == cache.count
      ensures prez.Contents() == old(prez.Contents())
      ensures var room := PAGE_CACHE_SIZE - |old(cache.Contents())|;
              cache.Contents() == old(cache.Contents()) + if n <= room then buf else buf[..room]
      ensures Conserved(old(View([])), Pools(zones, buf, old(cache.Contents()), prez.Contents()))
    {
      var b := TakeFromZones([], PAGE_CACHE_SIZE);
      buf, n := b, |b|;
      ghost var v1 := View(b);
      ghost var c0 := cache.Contents();
      if n > 0 {
        PushAll(b);
        cacheCount := cache.count;
      }
      assert v1 == Pools(zones, buf, c0, prez.Contents());
    }

    /** Push one page after the other, whatever the results. */
    method PushAll(b: seq<nat>)
      requires Shape()
      modifies cache, cache.pages
      ensures Shape() && prez.Contents() == old(prez.Contents())
      ensures var room := PAGE_CACHE_SIZE - |old(cache.Contents())|;
              cache.Contents() == old(cache.Contents()) + if |b| <= room then b else b[..room]
    {
      ghost var c0 := cache.Contents();
      ghost var room := PAGE_CACHE_SIZE - |c0|;
      for i := 0 to |b|
        invariant Shape() && prez.Contents() == old(prez.Contents())
        invariant cache.Contents() == c0 + if i <= room then b[..i] else b[..room]
      {
        var _ := cache.Push(b[i]);
      }
      assert b[..|b|] == b;
    }

    /** `alloc_page_inner`.  The page leaves the free pages and no other page moves out or is lost.
        It fails exactly when the cache and every zone are empty and, for a request that may be
        served from it, the prezeroed pool too. */
    method AllocPage(dirtyOk: bool) returns (r: Option<nat>)
      requires Valid()
      modifies Repr()
      ensures Valid()
      ensures r.Some? ==> Conserved(old(View([])), View([r.value])) && !Has(View([]), r.value)
      ensures r.None? ==> View([]) == old(View([]))
      ensures dirtyOk ==> prezCount == old(prezCount)
      ensures r.None? <==> old(ZonesEmpty(View([])) && cache.Contents() == [] && (dirtyOk || prez.Contents() == []))
      ensures var v := old(View([]));
              if !dirtyOk && v.prez != [] then TookPrezeroed(v, View([]), r)
              else v.cache != [] ==> TookCached(v, View([]), r)
    {
      ghost var v0 := View([]);
      if !dirtyOk && prezCount > 0 {
        PrezeroedToBuffer(v0);
        r := prez.Pop();
        prezCount := prezCount - 1;
        assert View([r.value]) == v0.(prez := v0.prez[..|v0.prez| - 1], buf := [v0.prez[|v0.prez| - 1]]);
        BufferLeaves(View([r.value]));
        return;
      }
      if cacheCount > 0 {
        r := PopCache(v0);
        return;
      }
      assert v0.cache == [];
      var n, buf := RefillPageCache();
      if n > 0 {
        ghost var v1 := Pools(zones, buf, [], prez.Contents());
        BufferToCache(v1);
        assert View([]) == v1.(cache := v1.cache + v1.buf, buf := []);
        ConservedTransitive(v0, v1, View([]));
        r := PopCache(v0);
        assert !old(ZonesEmpty(View([]))) by {
          if ZonesEmpty(v0) { EmptyZonesGiveNothing(v0, v1); }
        }
        return;
      }
      return None;
    }

    lemma EmptyZonesGiveNothing(v: Pools, w: Pools)
      requires Single(v) && Conserved(v, w) && v.buf == [] && w.buf != [] && v.cache == w.cache && v.prez == w.prez
      ensures !ZonesEmpty(v)
    {
      var p := w.buf[0];
      assert IsAt(w, p, Buffer(0));
      assert Has(w, p);
      var a :| IsAt(v, p, a);
      assert a.Cache? ==> IsAt(w, p, a);
      assert a.Prezeroed? ==> IsAt(w, p, a);
    }

    method PopCache(ghost v0: Pools) returns (r: Option<nat>)
      requires Valid() && cacheCount > 0 && Conserved(v0, View([]))
      modifies this`cacheCount, cache
      ensures Valid() && r.Some? && Conserved(v0, View([r.value])) && !Has(View([]), r.value)
      ensures TookCached(old(View([])), View([]), r) && prezCount == old(prezCount)
    {
      ghost var v := View([]);
      CacheToBuffer(v);
      r := cache.Pop();
      cacheCount := cacheCount - 1;
      assert v.buf + [r.value] == [r.value];
      assert View([r.value]) == v.(cache := v.cache[..|v.cache| - 1], buf := v.buf + [v.cache[|v.cache| - 1]]);
      ConservedTransitive(v0, v, View([r.value]));
      BufferLeaves(View([r.value]));
    }

    /** `alloc_page_batch`: the cache first, then the zones; short only when both ran dry. */
    method AllocPageBatch(max: nat) returns (out: seq<nat>)
      requires Valid()
      modifies Repr()
      ensures Valid() && |out| <= max
      ensures Conserved(old(View([])), View(out)) && Single(View(out))
      ensures |out| < max ==> cache.Contents() == [] && ZonesEmpty(View([]))
      ensures prez.Contents() == old(prez.Contents())
      ensures var c := old(cache.Contents());
              var n := Min(max, |c|);
              && FromTop(c, n) <= out && cache.Contents() == c[..|c| - n]
              && (max <= |c| ==> out == FromTop(c, n) && zones == old(zones))
    {
      ghost var v0 := View([]);
      out := [];
      if cacheCount > 0 {
        while |out| < max && cache.count > 0
          invariant Shape() && |out| <= max && zones == v0.zones && prez.Contents() == v0.prez
          invariant prezCount == prez.count && Conserved(v0, View(out))
          invariant |out| <= |v0.cache| && cache.Contents() == v0.cache[..|v0.cache| - |out|] && out == FromTop(v0.cache, |out|)
          decreases max - |out|
        {
          ghost var v := View(out);
          CacheToBuffer(v);
          var p := cache.Pop();
          out := out + [p.value];
          assert View(out) == v.(cache := v.cache[..|v.cache| - 1], buf := v.buf + [v.cache[|v.cache| - 1]]);
          ConservedTransitive(v0, v, View(out));
        }
        cacheCount := cache.count;
      }
      if |out| < max {
        ghost var v := View(out);
        out := TakeFromZones(out, max);
        ConservedTransitive(v0, v, View(out));
      }
      BufferLeaves(View(out));
    }

    /** `free_pages(p, 1)`.  `ok` is false where the source panics: the cache is full and no zone
        includes the page. */
    method FreePage(p: nat) returns (ok: bool)
      requires Valid() && !Has(View([]), p)
      modifies Repr()
      ensures Valid()
      ensures ok ==> Conserved(old(View([p])), View([]))
      ensures !ok ==> View([]) == old(View([]))
      ensures ok <==> old(cache.count) < PAGE_CACHE_SIZE
                      || exists k :: 0 <= k < |ranges| && Includes(ranges[k], p)
      ensures old(cache.count) < PAGE_CACHE_SIZE ==> View([]) == old(View([])).(cache := old(cache.Contents()) + [p])
      ensures ok && old(cache.count) >= PAGE_CACHE_SIZE ==>
                exists k :: 0 <= k < |ranges| && Includes(ranges[k], p)
                            && View([]) == old(View([])).(zones := old(zones)[k := old(zones)[k] + {p}])
    {
      ghost var v0, v := View([]), View([p]);
      assert Single(v) by {
        forall q, a, b | IsAt(v, q, a) && IsAt(v, q, b) ensures a == b {
          assert a.Buffer? || IsAt(v0, q, a);
          assert b.Buffer? || IsAt(v0, q, b);
        }
      }
      if cacheCount < PAGE_CACHE_SIZE {
        BufferToCache(v);
        ok := cache.Push(p);
        cacheCount := cacheCount + 1;
        assert View([]) == v.(cache := v.cache + v.buf, buf := []);
        return;
      }
      for k := 0 to |ranges|
        invariant forall j :: 0 <= j < k ==> !Includes(ranges[j], p)
        invariant View([]) == v0 && Valid()
      {
        if Includes(ranges[k], p) {
          BufferToZone(v, k);
          zones := zones[k := zones[k] + {p}];
          assert View([]) == v.(zones := v.zones[k := v.zones[k] + {v.buf[0]}], buf := []);
          return true;
        }
      }
      return false;
    }

    /** `refill_prezeroed_pages`: nothing above half full; otherwise top up, stopping early only
        when neither the cache nor a zone has a page left. */
    method RefillPrezeroedPages() returns (filled: nat)
      requires Valid()
      modifies Repr()
      ensures Valid() && Conserved(old(View([])), View([]))
      ensures prezCount == old(prezCount) + filled
      ensures old(prezCount) >= PREZEROED_4K_POOL_SIZE / 2 ==> filled == 0
      ensures old(prezCount) < PREZEROED_4K_POOL_SIZE / 2 ==>
                prezCount == PREZEROED_4K_POOL_SIZE || (cache.Contents() == [] && ZonesEmpty(View([])))
    {
      var current := prezCount;
      filled := 0;
      if current >= PREZEROED_4K_POOL_SIZE / 2 {
        return;
      }
      var target := PREZEROED_4K_POOL_SIZE - current;
      while filled < target
        invariant Valid() && Conserved(old(View([])), View([]))
        invariant filled <= target && prezCount == current + filled
        decreases target - filled
      {
        ghost var v := View([]);
        var r := AllocPage(true);
        if r.None? {
          return;
        }
        AddPrezeroed(v, r.value);
        ConservedTransitive(old(View([])), v, View([]));
        filled := filled + 1;
      }
    }

    method AddPrezeroed(ghost v: Pools, p: nat)
      requires Valid() && prezCount < PREZEROED_4K_POOL_SIZE && Conserved(v, View([p])) && Single(v)
      modifies this`prezCount, prez, prez.pages
      ensures Valid() && Conserved(v, View([])) && prezCount == old(prezCount) + 1
    {
      ghost var u := View([p]);
      BufferToPrezeroed(u);
      var ok := prez.Push(p);
      prezCount := prezCount + 1;
      assert View([]) == u.(prez := u.prez + u.buf, buf := []);
      ConservedTransitive(v, u, View([]));
    }
  }
}
