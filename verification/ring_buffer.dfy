/** `RingBuffer<T, CAP>`: a wrap-around buffer with read and write positions and a full flag. */
module RingBuffer {
  import opened Common

  lemma Wrap(at: nat, n: nat, cap: nat)
    requires at < cap && at + n <= cap
    ensures (at + n) % cap == if at + n == cap then 0 else at + n
  {
  }

  /** The stored elements of a ring, oldest first. */
  function Stored<T>(buf: seq<T>, rp: nat, wp: nat, full: bool): seq<T>
    requires rp < |buf| && wp < |buf|
  {
    if full || wp < rp then buf[rp..] + buf[..wp] else buf[rp..wp]
  }

  /** Overwriting the free slots behind the write position appends. */
  lemma StoreAppends<T>(buf: seq<T>, rp: nat, wp: nat, full: bool, src: seq<T>)
    requires rp < |buf| && wp < |buf| && !full
    requires 0 < |src| && wp + |src| <= if wp >= rp then |buf| else rp
    ensures var buf' := buf[..wp] + src + buf[wp + |src|..];
            var wp' := if wp + |src| == |buf| then 0 else wp + |src|;
            Stored(buf', rp, wp', wp' == rp) == Stored(buf, rp, wp, full) + src
  {
    var end := wp + |src|;
    var buf' := buf[..wp] + src + buf[end..];
    if wp >= rp {
      assert buf'[rp..end] == buf[rp..wp] + src;
      if end == |buf| {
        assert buf'[rp..] + buf'[..0] == buf'[rp..end];
      } else {
        assert end != rp;
      }
    } else {
      assert buf'[rp..] == buf[rp..];
      assert buf'[..end] == buf[..wp] + src;
    }
  }

  /** Moving the read position forward removes from the front. */
  lemma PopRemoves<T>(buf: seq<T>, rp: nat, wp: nat, full: bool, end: nat)
    requires rp < |buf| && wp < |buf| && (full ==> rp == wp) && (full || rp != wp)
    requires rp < end <= if rp < wp then wp else |buf|
    ensures var rp' := if end == |buf| then 0 else end;
            buf[rp..end] + Stored(buf, rp', wp, false) == Stored(buf, rp, wp, full)
  {
    if rp < wp {
      assert buf[rp..end] + buf[end..wp] == buf[rp..wp];
    } else if end < |buf| {
      assert buf[rp..end] + buf[end..] == buf[rp..];
    } else {
      assert buf[rp..end] == buf[rp..];
      assert buf[0..wp] == buf[..wp];
    }
  }

  lemma LongerPrefix<T>(first: seq<T>, data: seq<T>, i: nat, n: nat)
    requires i + n <= |data|
    ensures first + data[..i] + data[i..i + n] == first + data[..i + n]
  {
  }

  class Ring<T(0)> {
    const cap: nat
    const buf: array<T>
    var rp: nat
    var wp: nat
    var full: bool

    ghost predicate Valid()
      reads this
    {
      0 < cap == buf.Length && rp < cap && wp < cap && (full ==> rp == wp)
    }

    /** The stored elements, oldest first. */
    ghost function Contents(): seq<T>
      requires Valid()
      reads this, buf
    {
      Stored(buf[..], rp, wp, full)
    }

    constructor (cap: nat)
      requires cap > 0
      ensures Valid() && fresh(buf) && Contents() == [] && this.cap == cap
    {
      this.cap := cap;
      buf := new T[cap];
      rp, wp, full := 0, 0, false;
    }

    predicate IsWritable()
      reads this
    {
      !full
    }

    predicate IsReadable()
      reads this
    {
      full || rp != wp
    }

    lemma FlagsMeanEmptyAndFull()
      requires Valid()
      ensures IsReadable() <==> Contents() != []
      ensures IsWritable() <==> |Contents()| < cap
      ensures |Contents()| <= cap
    {
    }

    /** Free room up to the next wrap or the read position. */
    function ContiguousRoom(): nat
      requires Valid()
      reads this
    {
      if full then 0 else if wp >= rp then cap - wp else rp - wp
    }

    /** Fill the slice at the write position and commit it.  Committing zero elements is not
        allowed: on an empty ring it would set the full flag. */
    method StoreContiguous(src: seq<T>)
      requires Valid() && 0 < |src| <= ContiguousRoom()
      modifies this`wp, this`full, buf
      ensures Valid() && Contents() == old(Contents()) + src
    {
      ghost var before := buf[..];
      StoreAppends(before, rp, wp, full, src);
      Wrap(wp, |src|, cap);
      forall i | 0 <= i < |src| {
        buf[wp + i] := src[i];
      }
      assert buf[..] == before[..wp] + src + before[wp + |src|..];
      wp := (wp + |src|) % cap;
      full := wp == rp;
    }

    /** `copy_user_to_pipe`: as much of the data as fits, across the wrap. */
    method CopyIn(data: seq<T>) returns (written: nat)
      requires Valid()
      modifies this`wp, this`full, buf
      ensures Valid()
      ensures written == Min(|data|, cap - |old(Contents())|)
      ensures Contents() == old(Contents()) + data[..written]
    {
      written := 0;
      ghost var first, now := Contents(), Contents();
      while ContiguousRoom() != 0 && written < |data|
        invariant Valid() && written <= |data|
        invariant now == Contents() && now == first + data[..written]
        decreases |data| - written
      {
        var n := Min(|data| - written, ContiguousRoom());
        StoreContiguous(data[written..written + n]);
        LongerPrefix(first, data, written, n);
        written := written + n;
        now := Contents();
      }
      FlagsMeanEmptyAndFull();
    }

    /** `pop_slice`: the oldest elements up to `len`, the write position or the wrap. */
    method PopSlice(len: nat) returns (r: Option<seq<T>>)
      requires Valid()
      modifies this`rp, this`full
      ensures Valid()
      ensures r.None? <==> len == 0 || old(Contents()) == []
      ensures r.None? ==> Contents() == old(Contents())
      ensures r.Some? ==> 0 < |r.value| <= len && r.value + Contents() == old(Contents())
    {
      FlagsMeanEmptyAndFull();
      if !IsReadable() || len == 0 {
        return None;
      }
      var end := Min(rp + len, if rp < wp then wp else cap);
      var src := buf[rp..end];
      ghost var slots := buf[..];
      assert src == slots[rp..end];
      PopRemoves(slots, rp, wp, full, end);
      Wrap(rp, |src|, cap);
      rp := (rp + |src|) % cap;
      full := false;
      assert Contents() == Stored(slots, rp, wp, false);
      return Some(src);
    }

    /** The read loop: pop slices until the caller's room or the ring is exhausted. */
    method CopyOut(len: nat) returns (out: seq<T>)
      requires Valid()
      modifies this`rp, this`full
      ensures Valid()
      ensures |out| == Min(len, |old(Contents())|)
      ensures out + Contents() == old(Contents())
    {
      out := [];
      ghost var first, rest := Contents(), Contents();
      while true
        invariant Valid() && |out| <= len && rest == Contents() && out + rest == first
        decreases len - |out|
      {
        var src := PopSlice(len - |out|);
        if src.None? {
          break;
        }
        Regroup(out, src.value, Contents());
        out := out + src.value;
        rest := Contents();
      }
    }

    /** `push_slice`: the two-part copy does the same as the contiguous loop. */
    method PushSlice(data: seq<T>) returns (written: nat)
      requires Valid()
      modifies this`wp, this`full, buf
      ensures Valid()
      ensures written == Min(|data|, cap - |old(Contents())|)
      ensures Contents() == old(Contents()) + data[..written]
    {
      FlagsMeanEmptyAndFull();
      if !IsWritable() || |data| == 0 {
        return 0;
      }
      ghost var first := Contents();
      var n1 := Min(|data|, ContiguousRoom());
      var n2 := if wp >= rp then Min(|data| - n1, rp) else 0;
      RoomOfTwoParts(|data|);
      StoreContiguous(data[..n1]);
      if n2 > 0 {
        StoreContiguous(data[n1..n1 + n2]);
        LongerPrefix(first, data, n1, n2);
      }
      written := n1 + n2;
    }

    /** The two parts of a push together are the smaller of the data and the free room. */
    lemma RoomOfTwoParts(len: nat)
      requires Valid() && !full
      ensures var n1 := Min(len, ContiguousRoom());
              n1 + (if wp >= rp then Min(len - n1, rp) else 0) == Min(len, cap - |Contents()|)
    {
    }
  }
}
