/** Per-CPU event rings and the crash dump that merges them into one timeline. */
module FlightRecorder {
  import opened Common

  const RING_SIZE: nat := 256

  /** One call of `record`, with the clock and the global sequence number it read. */
  datatype Event = Event(tsc: nat, seqNo: bv64, kind: bv8, data0: bv32, data1: nat, data2: nat)

  /** The four words of a ring entry. */
  datatype Slot = Slot(tsc: nat, descriptor: bv64, data1: nat, data2: nat)

  datatype Entry = Entry(tsc: nat, seqLo: bv16, cpu: nat, kind: bv8, data0: bv32, data1: nat, data2: nat)

  function Pack(kind: bv8, cpu: bv8, seqNo: bv64, data0: bv32): bv64 {
    ((kind as bv64) << 56) | ((cpu as bv64) << 48) | ((seqNo & 0xFFFF) << 32) | (data0 as bv64)
  }

  function KindOf(d: bv64): bv8 { ((d >> 56) & 0xff) as bv8 }
  function CpuOf(d: bv64): bv8 { ((d >> 48) & 0xff) as bv8 }
  function SeqLoOf(d: bv64): bv16 { ((d >> 32) & 0xffff) as bv16 }
  function Data0Of(d: bv64): bv32 { (d & 0xffff_ffff) as bv32 }

  /** Every packed field comes back, whatever its neighbours hold. */
  lemma DescriptorRoundTrip(kind: bv8, cpu: bv8, seqNo: bv64, data0: bv32)
    ensures KindOf(Pack(kind, cpu, seqNo, data0)) == kind
    ensures CpuOf(Pack(kind, cpu, seqNo, data0)) == cpu
    ensures SeqLoOf(Pack(kind, cpu, seqNo, data0)) == (seqNo & 0xFFFF) as bv16
    ensures Data0Of(Pack(kind, cpu, seqNo, data0)) == data0
  {
  }

  // ---- What a dump shows ----

  function SlotOf(e: Event, cpu: bv8): Slot {
    Slot(e.tsc, Pack(e.kind, cpu, e.seqNo, e.data0), e.data1, e.data2)
  }

  function Decode(s: Slot, cpu: nat): Entry {
    Entry(s.tsc, SeqLoOf(s.descriptor), cpu, KindOf(s.descriptor), Data0Of(s.descriptor), s.data1, s.data2)
  }

  /** The line an event deserves, from the event itself. */
  function EntryOf(e: Event, cpu: nat): Entry {
    Entry(e.tsc, (e.seqNo & 0xFFFF) as bv16, cpu, e.kind, e.data0, e.data1, e.data2)
  }

  lemma DecodeFields(e: Event, cpu: nat, d: bv64)
    requires KindOf(d) == e.kind && SeqLoOf(d) == (e.seqNo & 0xFFFF) as bv16 && Data0Of(d) == e.data0
    ensures Decode(Slot(e.tsc, d, e.data1, e.data2), cpu) == EntryOf(e, cpu)
  {
  }

  lemma PackedFields(e: Event, b: bv8, d: bv64)
    requires d == Pack(e.kind, b, e.seqNo, e.data0)
    ensures KindOf(d) == e.kind && SeqLoOf(d) == (e.seqNo & 0xFFFF) as bv16 && Data0Of(d) == e.data0
  {
    DescriptorRoundTrip(e.kind, b, e.seqNo, e.data0);
  }

  lemma DecodePacked(e: Event, cpu: nat, b: bv8, d: bv64)
    requires d == Pack(e.kind, b, e.seqNo, e.data0)
    ensures Decode(Slot(e.tsc, d, e.data1, e.data2), cpu) == EntryOf(e, cpu)
  {
    PackedFields(e, b, d);
    DecodeFields(e, cpu, d);
  }

  /** A recorded event is printed as it was recorded, field by field. */
  lemma DecodeSlot(e: Event, cpu: nat, b: bv8)
    ensures Decode(SlotOf(e, b), cpu) == EntryOf(e, cpu)
    ensures var d := Decode(SlotOf(e, b), cpu);
            && d.tsc == e.tsc && d.cpu == cpu && d.kind == e.kind && d.data0 == e.data0
            && d.data1 == e.data1 && d.data2 == e.data2 && d.seqLo == (e.seqNo & 0xFFFF) as bv16
  {
    DecodePacked(e, cpu, b, Pack(e.kind, b, e.seqNo, e.data0));
  }

  /** Entries of a stretch of one CPU's history; a zero timestamp marks an unwritten slot. */
  function Shown(h: seq<Event>, cpu: nat): seq<Entry> {
    if h == [] then []
    else
      var last := h[|h| - 1];
      var before := Shown(h[..|h| - 1], cpu);
      if last.tsc == 0 then before else before + [EntryOf(last, cpu)]
  }

  lemma ShownPush(h: seq<Event>, i: nat, cpu: nat)
    requires i < |h|
    ensures Shown(h[..i + 1], cpu)
            == if h[i].tsc == 0 then Shown(h[..i], cpu) else Shown(h[..i], cpu) + [EntryOf(h[i], cpu)]
  {
    assert h[..i + 1][..i] == h[..i];
  }

  /** The last min(n, 256) events. */
  function Recent(h: seq<Event>): seq<Event> {
    if |h| > RING_SIZE then h[|h| - RING_SIZE..] else h
  }

  /** What each ring still holds, oldest first. */
  function Parts(hs: seq<seq<Event>>): (parts: seq<seq<Entry>>)
    ensures |parts| == |hs|
  {
    seq(|hs|, c requires 0 <= c < |hs| => Shown(Recent(hs[c]), c))
  }

  function Joined(parts: seq<seq<Entry>>, n: nat): seq<Entry>
    requires n <= |parts|
  {
    if n == 0 then [] else Joined(parts, n - 1) + parts[n - 1]
  }

  /** Everything the rings still hold, CPU by CPU. */
  function Timeline(hs: seq<seq<Event>>): seq<Entry> {
    Joined(Parts(hs), |hs|)
  }

  // ---- Stable sorting ----

  predicate Ordered(s: seq<Entry>) {
    forall i, j :: 0 <= i < j < |s| ==> s[i].tsc <= s[j].tsc
  }

  function Insert(s: seq<Entry>, e: Entry): seq<Entry> {
    if s == [] || s[|s| - 1].tsc <= e.tsc then s + [e]
    else Insert(s[..|s| - 1], e) + [s[|s| - 1]]
  }

  function Sorted(s: seq<Entry>): seq<Entry> {
    if s == [] then [] else Insert(Sorted(s[..|s| - 1]), s[|s| - 1])
  }

  function Filter(p: Entry -> bool, s: seq<Entry>): seq<Entry> {
    if s == [] then []
    else if p(s[|s| - 1]) then Filter(p, s[..|s| - 1]) + [s[|s| - 1]]
    else Filter(p, s[..|s| - 1])
  }

  lemma {:induction false} InsertSplits(s: seq<Entry>, e: Entry, j: nat)
    requires j <= |s| && (forall k :: j <= k < |s| ==> s[k].tsc > e.tsc)
    requires j == 0 || s[j - 1].tsc <= e.tsc
    ensures Insert(s, e) == s[..j] + [e] + s[j..]
  {
    if j < |s| {
      var top := |s| - 1;
      InsertSplits(s[..top], e, j);
      assert s[..top][..j] == s[..j];
      assert s[..top][j..] + [s[top]] == s[j..];
    }
  }

  lemma {:induction false} WhereInserted(s: seq<Entry>, e: Entry) returns (j: nat)
    requires Ordered(s)
    ensures j <= |s| && Insert(s, e) == s[..j] + [e] + s[j..]
    ensures (forall k :: 0 <= k < j ==> s[k].tsc <= e.tsc) && (forall k :: j <= k < |s| ==> s[k].tsc > e.tsc)
  {
    j := |s|;
    while j > 0 && s[j - 1].tsc > e.tsc
      invariant j <= |s| && forall k :: j <= k < |s| ==> s[k].tsc > e.tsc
    {
      j := j - 1;
    }
    InsertSplits(s, e, j);
  }

  lemma InsertKeepsOrder(s: seq<Entry>, e: Entry)
    requires Ordered(s)
    ensures Ordered(Insert(s, e))
  {
    var j := WhereInserted(s, e);
  }

  lemma {:induction false} InsertKeepsEntries(s: seq<Entry>, e: Entry)
    ensures multiset(Insert(s, e)) == multiset(s) + multiset{e}
  {
    if s != [] && s[|s| - 1].tsc > e.tsc {
      InsertKeepsEntries(s[..|s| - 1], e);
      assert s == s[..|s| - 1] + [s[|s| - 1]];
    }
  }

  lemma {:induction false} SortedIsSortedPermutation(s: seq<Entry>)
    ensures Ordered(Sorted(s)) && multiset(Sorted(s)) == multiset(s)
  {
    if s != [] {
      var top := |s| - 1;
      SortedIsSortedPermutation(s[..top]);
      InsertKeepsOrder(Sorted(s[..top]), s[top]);
      InsertKeepsEntries(Sorted(s[..top]), s[top]);
      assert s == s[..top] + [s[top]];
    }
  }

  lemma {:induction false} FilterBounded(p: Entry -> bool, s: seq<Entry>, bound: nat)
    requires forall k :: 0 <= k < |s| ==> s[k].tsc <= bound
    ensures forall k :: 0 <= k < |Filter(p, s)| ==> Filter(p, s)[k].tsc <= bound
  {
    if s != [] {
      FilterBounded(p, s[..|s| - 1], bound);
    }
  }

  lemma FilterPush(p: Entry -> bool, s: seq<Entry>, e: Entry)
    ensures Filter(p, s + [e]) == if p(e) then Filter(p, s) + [e] else Filter(p, s)
  {
    assert (s + [e])[..|s|] == s;
  }

  lemma InsertBelow(s: seq<Entry>, last: Entry, e: Entry)
    requires last.tsc > e.tsc
    ensures Insert(s + [last], e) == Insert(s, e) + [last]
  {
    assert (s + [last])[..|s|] == s;
  }

  predicate Commutes(p: Entry -> bool, s: seq<Entry>, e: Entry) {
    Filter(p, Insert(s, e)) == if p(e) then Insert(Filter(p, s), e) else Filter(p, s)
  }

  lemma CommutesAtEnd(p: Entry -> bool, s: seq<Entry>, e: Entry)
    requires forall k :: 0 <= k < |s| ==> s[k].tsc <= e.tsc
    ensures Commutes(p, s, e)
  {
    FilterPush(p, s, e);
    FilterBounded(p, s, e.tsc);
  }

  lemma CommutesBelow(p: Entry -> bool, s: seq<Entry>, last: Entry, e: Entry)
    requires last.tsc > e.tsc && Commutes(p, s, e)
    ensures Commutes(p, s + [last], e)
  {
    InsertBelow(s, last, e);
    FilterPush(p, Insert(s, e), last);
    FilterPush(p, s, last);
    if p(last) {
      InsertBelow(Filter(p, s), last, e);
    }
  }

  lemma {:induction false} InsertThenFilter(p: Entry -> bool, s: seq<Entry>, e: Entry)
    requires Ordered(s)
    ensures Commutes(p, s, e)
  {
    if s == [] || s[|s| - 1].tsc <= e.tsc {
      CommutesAtEnd(p, s, e);
    } else {
      var top := |s| - 1;
      InsertThenFilter(p, s[..top], e);
      CommutesBelow(p, s[..top], s[top], e);
      assert s[..top] + [s[top]] == s;
    }
  }

  lemma SortPush(s: seq<Entry>, e: Entry)
    ensures Sorted(s + [e]) == Insert(Sorted(s), e)
  {
    assert (s + [e])[..|s|] == s;
  }

  /** Sorting commutes with every selection of entries. */
  lemma {:induction false} SortThenFilter(p: Entry -> bool, s: seq<Entry>)
    ensures Filter(p, Sorted(s)) == Sorted(Filter(p, s))
  {
    if s != [] {
      var top := |s| - 1;
      SortThenFilter(p, s[..top]);
      SortedIsSortedPermutation(s[..top]);
      InsertThenFilter(p, Sorted(s[..top]), s[top]);
      if p(s[top]) {
        SortPush(Filter(p, s[..top]), s[top]);
      }
    }
  }

  lemma {:induction false} SortedOfOrdered(s: seq<Entry>)
    requires Ordered(s)
    ensures Sorted(s) == s
  {
    if s != [] {
      var rest, last := s[..|s| - 1], s[|s| - 1];
      SortedOfOrdered(rest);
      SortPush(rest, last);
      InsertLast(rest, last);
      assert s == rest + [last];
    }
  }

  lemma InsertLast(s: seq<Entry>, e: Entry)
    requires s != [] ==> s[|s| - 1].tsc <= e.tsc
    ensures Insert(s, e) == s + [e]
  {
  }

  // ---- The merged timeline ----

  function OfCpu(cpu: nat): Entry -> bool { (e: Entry) => e.cpu == cpu }

  function OfCpuAt(cpu: nat, tsc: nat): Entry -> bool { (e: Entry) => e.cpu == cpu && e.tsc == tsc }

  lemma {:induction false} FilterAppend(p: Entry -> bool, a: seq<Entry>, b: seq<Entry>)
    ensures Filter(p, a + b) == Filter(p, a) + Filter(p, b)
  {
    if b == [] {
      assert a + b == a;
    } else {
      var rest, last := b[..|b| - 1], b[|b| - 1];
      FilterAppend(p, a, rest);
      assert a + b == (a + rest) + [last];
      FilterPush(p, a + rest, last);
      if p(last) {
        Regroup(Filter(p, a), Filter(p, rest), [last]);
      }
    }
  }

  lemma {:induction false} FilterAll(p: Entry -> bool, s: seq<Entry>)
    requires forall k :: 0 <= k < |s| ==> p(s[k])
    ensures Filter(p, s) == s
  {
    if s != [] {
      FilterAll(p, s[..|s| - 1]);
      assert s[..|s| - 1] + [s[|s| - 1]] == s;
    }
  }

  lemma {:induction false} FilterNone(p: Entry -> bool, s: seq<Entry>)
    requires forall k :: 0 <= k < |s| ==> !p(s[k])
    ensures Filter(p, s) == []
  {
    if s != [] {
      FilterNone(p, s[..|s| - 1]);
    }
  }

  lemma {:induction false} ShownCpu(h: seq<Event>, cpu: nat)
    ensures forall k :: 0 <= k < |Shown(h, cpu)| ==> Shown(h, cpu)[k].cpu == cpu
  {
    if h != [] {
      ShownCpu(h[..|h| - 1], cpu);
    }
  }

  predicate OnlyCpu(s: seq<Entry>, cpu: nat) {
    forall k :: 0 <= k < |s| ==> s[k].cpu == cpu
  }

  predicate Labelled(parts: seq<seq<Entry>>) {
    forall c :: 0 <= c < |parts| ==> OnlyCpu(parts[c], c)
  }

  /** Appending another CPU's entries does not change what is picked. */
  lemma AppendOther(cpu: nat, a: seq<Entry>, b: seq<Entry>, owner: nat)
    requires OnlyCpu(b, owner) && owner != cpu
    ensures Filter(OfCpu(cpu), a + b) == Filter(OfCpu(cpu), a)
  {
    FilterAppend(OfCpu(cpu), a, b);
    FilterNone(OfCpu(cpu), b);
  }

  lemma AppendOwn(cpu: nat, a: seq<Entry>, b: seq<Entry>)
    requires OnlyCpu(b, cpu) && Filter(OfCpu(cpu), a) == []
    ensures Filter(OfCpu(cpu), a + b) == b
  {
    FilterAppend(OfCpu(cpu), a, b);
    FilterAll(OfCpu(cpu), b);
  }

  lemma {:induction false} NoneOfLater(parts: seq<seq<Entry>>, n: nat, cpu: nat)
    requires n <= cpu < |parts| && Labelled(parts)
    ensures Filter(OfCpu(cpu), Joined(parts, n)) == []
  {
    if n > 0 {
      NoneOfLater(parts, n - 1, cpu);
      AppendOther(cpu, Joined(parts, n - 1), parts[n - 1], n - 1);
    }
  }

  lemma {:induction false} JoinedOfCpu(parts: seq<seq<Entry>>, n: nat, cpu: nat)
    requires cpu < n <= |parts| && Labelled(parts)
    ensures Filter(OfCpu(cpu), Joined(parts, n)) == parts[cpu]
  {
    if cpu == n - 1 {
      NoneOfLater(parts, cpu, cpu);
      AppendOwn(cpu, Joined(parts, cpu), parts[cpu]);
    } else {
      JoinedOfCpu(parts, n - 1, cpu);
      AppendOther(cpu, Joined(parts, n - 1), parts[n - 1], n - 1);
    }
  }

  /** Picking one CPU out of the unsorted collection gives that CPU's recent events back. */
  lemma TimelineOfCpu(hs: seq<seq<Event>>, cpu: nat)
    requires cpu < |hs|
    ensures Filter(OfCpu(cpu), Timeline(hs)) == Shown(Recent(hs[cpu]), cpu)
  {
    var parts := Parts(hs);
    forall c | 0 <= c < |parts|
      ensures OnlyCpu(parts[c], c)
    {
      ShownCpu(Recent(hs[c]), c);
    }
    JoinedOfCpu(parts, |hs|, cpu);
  }

  lemma {:induction false} FilterTwice(cpu: nat, tsc: nat, s: seq<Entry>)
    ensures Filter(OfCpuAt(cpu, tsc), s) == Filter(OfCpuAt(cpu, tsc), Filter(OfCpu(cpu), s))
  {
    if s != [] {
      var top := |s| - 1;
      FilterTwice(cpu, tsc, s[..top]);
      if s[top].cpu == cpu {
        FilterPush(OfCpuAt(cpu, tsc), Filter(OfCpu(cpu), s[..top]), s[top]);
      }
    }
  }

  lemma {:induction false} SameTime(cpu: nat, tsc: nat, s: seq<Entry>)
    ensures forall k :: 0 <= k < |Filter(OfCpuAt(cpu, tsc), s)| ==> Filter(OfCpuAt(cpu, tsc), s)[k].tsc == tsc
  {
    if s != [] {
      SameTime(cpu, tsc, s[..|s| - 1]);
    }
  }

  /** Events of one CPU with equal timestamps are dumped in record order. */
  lemma EqualTimesKeepRecordOrder(hs: seq<seq<Event>>, cpu: nat, tsc: nat)
    requires cpu < |hs|
    ensures Filter(OfCpuAt(cpu, tsc), Sorted(Timeline(hs)))
            == Filter(OfCpuAt(cpu, tsc), Shown(Recent(hs[cpu]), cpu))
  {
    var p := OfCpuAt(cpu, tsc);
    var all := Timeline(hs);
    SortThenFilter(p, all);
    FilterTwice(cpu, tsc, all);
    TimelineOfCpu(hs, cpu);
    SameTime(cpu, tsc, all);
    SortedOfOrdered(Filter(p, all));
  }

  /** If a CPU's clock never ran backwards, its part of the dump is exactly its recent history. */
  lemma SteadyClockKeepsRecordOrder(hs: seq<seq<Event>>, cpu: nat)
    requires cpu < |hs|
    ensures Filter(OfCpu(cpu), Sorted(Timeline(hs))) == Shown(Recent(hs[cpu]), cpu)
            <==> Ordered(Shown(Recent(hs[cpu]), cpu))
  {
    var all := Timeline(hs);
    SortThenFilter(OfCpu(cpu), all);
    TimelineOfCpu(hs, cpu);
    var mine := Shown(Recent(hs[cpu]), cpu);
    SortedIsSortedPermutation(mine);
    if Ordered(mine) {
      SortedOfOrdered(mine);
    }
  }

  /** What stays in a ring: the last 256 events, or all of fewer. */
  lemma RecentIsTheLast(h: seq<Event>)
    ensures |Recent(h)| == Min(|h|, 256)
    ensures forall k :: 0 <= k < |Recent(h)| ==> Recent(h)[k] == h[|h| - Min(|h|, 256) + k]
  {
  }

  /** One line for every event with a timestamp, none for the others. */
  lemma {:induction false} ShownAll(h: seq<Event>, cpu: nat)
    requires forall k :: 0 <= k < |h| ==> h[k].tsc != 0
    ensures |Shown(h, cpu)| == |h|
    ensures forall k :: 0 <= k < |h| ==> Shown(h, cpu)[k] == EntryOf(h[k], cpu)
  {
    if h != [] {
      ShownAll(h[..|h| - 1], cpu);
    }
  }

  lemma {:induction false} ShownStamped(h: seq<Event>, cpu: nat)
    ensures forall k :: 0 <= k < |Shown(h, cpu)| ==> Shown(h, cpu)[k].tsc != 0
  {
    if h != [] {
      ShownStamped(h[..|h| - 1], cpu);
    }
  }

  predicate Steady(h: seq<Event>) {
    && (forall i :: 0 <= i < |h| ==> h[i].tsc != 0)
    && (forall i, j :: 0 <= i < j < |h| ==> h[i].tsc <= h[j].tsc)
  }

  lemma RecentSteady(h: seq<Event>)
    requires Steady(h)
    ensures Steady(Recent(h))
  {
    RecentIsTheLast(h);
  }

  lemma SteadyShown(h: seq<Event>, cpu: nat)
    requires Steady(h)
    ensures Ordered(Shown(h, cpu)) && |Shown(h, cpu)| == |h|
    ensures forall k :: 0 <= k < |h| ==> Shown(h, cpu)[k] == EntryOf(h[k], cpu)
  {
    ShownAll(h, cpu);
    var lines := Shown(h, cpu);
    forall i, j | 0 <= i < j < |lines|
      ensures lines[i].tsc <= lines[j].tsc
    {
      assert lines[i] == EntryOf(h[i], cpu) && lines[j] == EntryOf(h[j], cpu);
    }
  }

  /** With a steady nonzero clock a CPU's part of the dump is, line by line, its recent events. */
  lemma DumpShowsRecent(hs: seq<seq<Event>>, cpu: nat)
    requires cpu < |hs| && Steady(hs[cpu])
    ensures var lines, recent := Filter(OfCpu(cpu), Sorted(Timeline(hs))), Recent(hs[cpu]);
            |lines| == |recent| && forall k :: 0 <= k < |lines| ==> lines[k] == EntryOf(recent[k], cpu)
  {
    RecentSteady(hs[cpu]);
    SteadyShown(Recent(hs[cpu]), cpu);
    SteadyClockKeepsRecordOrder(hs, cpu);
  }

  // ---- The recorder ----

  /** `entries[..count]` becomes sorted by adjacent swaps. */
  method InsertionSort(entries: array<Entry>, count: nat)
    requires count <= entries.Length
    modifies entries
    ensures entries[..count] == Sorted(old(entries[..count]))
    ensures entries[count..] == old(entries[count..])
  {
    ghost var was := entries[..];
    if count == 0 {
      return;
    }
    assert was[..1] == [was[0]];
    for i := 1 to count
      invariant entries[..i] == Sorted(was[..i])
      invariant entries[i..] == was[i..]
    {
      SiftDown(entries, i);
      assert was[..i + 1][..i] == was[..i];
    }
  }

  method SiftDown(entries: array<Entry>, i: nat)
    requires i < entries.Length
    modifies entries
    ensures entries[..i + 1] == Insert(old(entries[..i]), old(entries[i]))
    ensures entries[i + 1..] == old(entries[i + 1..])
  {
    ghost var s: seq<Entry> := entries[..i];
    ghost var e := entries[i];
    var j := i;
    while j > 0 && entries[j].tsc < entries[j - 1].tsc
      invariant 0 <= j <= i
      invariant forall k :: j <= k < i ==> s[k].tsc > e.tsc
      invariant forall k :: 0 <= k < j ==> entries[k] == s[k]
      invariant entries[j] == e
      invariant forall k :: j < k <= i ==> entries[k] == s[k - 1]
      invariant entries[i + 1..] == old(entries[i + 1..])
    {
      entries[j], entries[j - 1] := entries[j - 1], entries[j];
      j := j - 1;
    }
    InsertSplits(s, e, j);
    assert entries[..i + 1] == s[..j] + [e] + s[j..];
  }

  lemma OtherSlot(k: nat, raw: nat)
    ensures k < raw < k + RING_SIZE ==> k % RING_SIZE != raw % RING_SIZE
  {
  }

  /** The i-th slot read, starting from the oldest, is the one event `n - num + i` went to. */
  lemma ReadSlot(n: nat, i: nat)
    requires i < if n < RING_SIZE then n else RING_SIZE
    ensures var num := if n < RING_SIZE then n else RING_SIZE;
            var start := if n > RING_SIZE then n % RING_SIZE else 0;
            (start + i) % RING_SIZE == (n - num + i) % RING_SIZE
  {
  }

  class Recorder {
    const rings: array2<Slot>
    const idx: array<nat>
    var globalSeq: bv64
    ghost var history: seq<seq<Event>>

    /** Slot `k % 256` of this ring still holds event `k`. */
    ghost predicate Holds(cpu: nat, k: nat)
      requires rings.Length0 == MAX_CPUS && rings.Length1 == RING_SIZE
      requires cpu < MAX_CPUS && |history| == MAX_CPUS && k < |history[cpu]|
      reads this, rings
    {
      rings[cpu, k % RING_SIZE] == SlotOf(history[cpu][k], cpu as bv8)
    }

    ghost predicate Valid()
      reads this, rings, idx
    {
      && rings.Length0 == MAX_CPUS && rings.Length1 == RING_SIZE && idx.Length == MAX_CPUS
      && |history| == MAX_CPUS
      && (forall c :: 0 <= c < MAX_CPUS ==> idx[c] == |history[c]|)
      && (forall c: nat, k: nat :: c < MAX_CPUS && k < |history[c]| <= k + RING_SIZE ==> Holds(c, k))
    }

    constructor ()
      ensures Valid() && history == seq(MAX_CPUS, _ => []) && fresh(rings) && fresh(idx)
    {
      rings := new Slot[MAX_CPUS, RING_SIZE]((_, _) => Slot(0, 0, 0, 0));
      idx := new nat[MAX_CPUS](_ => 0);
      globalSeq := 0;
      history := seq(MAX_CPUS, _ => []);
    }

    method Record(cpuId: nat, tsc: nat, kind: bv8, data0: bv32, data1: nat, data2: nat)
      requires Valid()
      modifies this, rings, idx
      ensures Valid() && globalSeq == old(globalSeq) + 1
      ensures var cpu := cpuId % MAX_CPUS;
              history == old(history)[cpu := old(history)[cpu] + [Event(tsc, old(globalSeq), kind, data0, data1, data2)]]
    {
      var cpu := cpuId % MAX_CPUS;
      var raw := idx[cpu];
      idx[cpu] := raw + 1;
      var seqNo := globalSeq;
      globalSeq := globalSeq + 1;
      rings[cpu, raw % RING_SIZE] := Slot(tsc, Pack(kind, cpu as bv8, seqNo, data0), data1, data2);
      history := history[cpu := history[cpu] + [Event(tsc, seqNo, kind, data0, data1, data2)]];
      forall c: nat, k: nat | c < MAX_CPUS && k < |history[c]| <= k + RING_SIZE
        ensures Holds(c, k)
      {
        if c != cpu || k < raw {
          assert old(Holds(c, k));
          OtherSlot(k, raw);
        }
      }
    }

    /** Read and decode the i-th oldest slot of one ring. */
    method ReadOldest(cpu: nat, i: nat) returns (e: Entry)
      requires Valid() && cpu < MAX_CPUS && i < |Recent(history[cpu])|
      ensures e == EntryOf(Recent(history[cpu])[i], cpu)
    {
      var n := idx[cpu];
      var start := if n > RING_SIZE then n % RING_SIZE else 0;
      ReadSlot(n, i);
      var slot := rings[cpu, (start + i) % RING_SIZE];
      ghost var k := if n < RING_SIZE then i else n - RING_SIZE + i;
      assert Holds(cpu, k);
      assert Recent(history[cpu])[i] == history[cpu][k];
      DecodeSlot(history[cpu][k], cpu, cpu as bv8);
      e := Decode(slot, cpu);
    }

    /** Append the i-th oldest slot of one ring, unless it was never written. */
    method CollectSlot(cpu: nat, i: nat, entries: array<Entry>, end: nat, ghost before: seq<Entry>) returns (next: nat)
      requires Valid() && cpu < MAX_CPUS && i < |Recent(history[cpu])| && end < entries.Length
      requires entries[..end] == before + Shown(Recent(history[cpu])[..i], cpu)
      modifies entries
      ensures end <= next <= end + 1
      ensures entries[..next] == before + Shown(Recent(history[cpu])[..i + 1], cpu)
    {
      ghost var recent, sofar := Recent(history[cpu]), Shown(Recent(history[cpu])[..i], cpu);
      var e := ReadOldest(cpu, i);
      ShownPush(recent, i, cpu);
      next := end;
      if e.tsc != 0 {
        Regroup(before, sofar, [e]);
        entries[end] := e;
        next := end + 1;
        assert entries[..next] == (before + sofar) + [e];
      }
    }

    /** Append one ring, oldest first, to `entries[..count]`. */
    method CollectCpu(cpu: nat, entries: array<Entry>, count: nat) returns (end: nat)
      requires Valid() && cpu < MAX_CPUS && entries.Length == MAX_CPUS * RING_SIZE && count <= cpu * RING_SIZE
      modifies entries
      ensures end <= (cpu + 1) * RING_SIZE
      ensures entries[..end] == old(entries[..count]) + Shown(Recent(history[cpu]), cpu)
    {
      end := count;
      var n := idx[cpu];
      var num := if n < RING_SIZE then n else RING_SIZE;
      ghost var recent := Recent(history[cpu]);
      ghost var before: seq<Entry> := entries[..count];
      for i := 0 to num
        invariant count <= end <= count + i
        invariant entries[..end] == before + Shown(recent[..i], cpu)
      {
        end := CollectSlot(cpu, i, entries, end, before);
      }
      assert recent[..num] == recent;
    }

    /** The sorted entries of a crash dump, taken with the other CPUs halted. */
    method Dump() returns (entries: array<Entry>, count: nat)
      requires Valid()
      ensures Valid() && fresh(entries) && count <= entries.Length
      ensures entries[..count] == Sorted(Timeline(history))
      ensures Ordered(entries[..count]) && multiset(entries[..count]) == multiset(Timeline(history))
    {
      entries := new Entry[MAX_CPUS * RING_SIZE](_ => Entry(0, 0, 0, 0, 0, 0, 0));
      count := 0;
      for cpu := 0 to MAX_CPUS
        invariant count <= cpu * RING_SIZE
        invariant entries[..count] == Joined(Parts(history), cpu)
      {
        if idx[cpu] != 0 {
          count := CollectCpu(cpu, entries, count);
        }
      }
      SortedIsSortedPermutation(Timeline(history));
      InsertionSort(entries, count);
    }
  }
}
