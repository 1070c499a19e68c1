/** The TIMERS list of sleeping processes and one timer-interrupt pass over it. */
module Timers {

  const TICK_HZ: nat := 100
  const USIZE: nat := 0x1_0000_0000_0000_0000

  /** `(ms * TICK_HZ + 999) / 1000` in wrapping 64-bit arithmetic. */
  function Ticks(ms: nat): nat {
    (ms * TICK_HZ + 999) % USIZE / 1000
  }

  /** The tick count is the request rounded up, exactly when the product does not wrap. */
  lemma TicksRoundUp(ms: nat)
    ensures ms * TICK_HZ + 999 < USIZE
            <==> 1000 * (Ticks(ms) - 1) < ms * TICK_HZ <= 1000 * Ticks(ms)
  {
    var x := ms * TICK_HZ + 999;
    if x >= USIZE {
      assert x % USIZE < USIZE;
      assert 1000 * Ticks(ms) <= x % USIZE;
      WrapLoses(x);
    }
  }

  lemma WrapLoses(x: nat)
    requires x >= USIZE
    ensures x % USIZE <= x - USIZE
  {
  }

  // ---- One pass over the list ----

  datatype Timer<P> = Timer(current: nat, process: P)

  function Decremented<P>(ts: seq<Timer<P>>): seq<Timer<P>> {
    seq(|ts|, i requires 0 <= i < |ts| =>
      if ts[i].current > 0 then ts[i].(current := ts[i].current - 1) else ts[i])
  }

  /** `retain`: the timers that have not reached zero, in order. */
  function Kept<P>(ts: seq<Timer<P>>): seq<Timer<P>> {
    if ts == [] then []
    else if ts[|ts| - 1].current == 0 then Kept(ts[..|ts| - 1])
    else Kept(ts[..|ts| - 1]) + [ts[|ts| - 1]]
  }

  /** The processes `retain` hands out, in order. */
  function Expired<P>(ts: seq<Timer<P>>): seq<P> {
    if ts == [] then []
    else if ts[|ts| - 1].current == 0 then Expired(ts[..|ts| - 1]) + [ts[|ts| - 1].process]
    else Expired(ts[..|ts| - 1])
  }

  class TimerList<P> {
    var timers: seq<Timer<P>>

    constructor ()
      ensures timers == []
    {
      timers := [];
    }

    method Push(ms: nat, process: P)
      modifies this
      ensures timers == old(timers) + [Timer(Ticks(ms), process)]
    {
      timers := timers + [Timer(Ticks(ms), process)];
    }

    method Pass() returns (expired: seq<P>)
      modifies this
      ensures timers == Kept(Decremented(old(timers)))
      ensures expired == Expired(Decremented(old(timers)))
    {
      ghost var was := timers;
      for i := 0 to |timers|
        invariant |timers| == |was|
        invariant forall k :: 0 <= k < i ==> timers[k] == Decremented(was)[k]
        invariant forall k :: i <= k < |was| ==> timers[k] == was[k]
      {
        if timers[i].current > 0 {
          timers := timers[i := timers[i].(current := timers[i].current - 1)];
        }
      }
      assert timers == Decremented(was);
      ghost var ts := timers;
      expired := [];
      var kept := [];
      for i := 0 to |timers|
        invariant timers == ts && kept == Kept(ts[..i]) && expired == Expired(ts[..i])
      {
        assert ts[..i + 1][..i] == ts[..i];
        if timers[i].current == 0 {
          expired := expired + [timers[i].process];
        } else {
          kept := kept + [timers[i]];
        }
      }
      assert ts[..|ts|] == ts;
      timers := kept;
    }
  }

  lemma {:induction false} KeptMembers<P>(ts: seq<Timer<P>>, t: Timer<P>)
    ensures t in Kept(ts) <==> t in ts && t.current != 0
  {
    if ts != [] {
      KeptMembers(ts[..|ts| - 1], t);
      assert ts == ts[..|ts| - 1] + [ts[|ts| - 1]];
    }
  }

  lemma {:induction false} ExpiredMembers<P>(ts: seq<Timer<P>>, p: P)
    ensures p in Expired(ts) <==> Timer(0, p) in ts
  {
    if ts != [] {
      ExpiredMembers(ts[..|ts| - 1], p);
      assert ts == ts[..|ts| - 1] + [ts[|ts| - 1]];
    }
  }

  lemma DecrementedMembers<P>(ts: seq<Timer<P>>, t: Timer<P>)
    ensures t in Decremented(ts) <==> Timer(t.current + 1, t.process) in ts || (t.current == 0 && t in ts)
  {
    var ds := Decremented(ts);
    if t in ds {
      var i :| 0 <= i < |ds| && ds[i] == t;
      assert ts[i] in ts;
    }
    if Timer(t.current + 1, t.process) in ts {
      var i :| 0 <= i < |ts| && ts[i] == Timer(t.current + 1, t.process);
      assert ds[i] == t;
    }
    if t.current == 0 && t in ts {
      var i :| 0 <= i < |ts| && ts[i] == t;
      assert ds[i] == t;
    }
  }

  /** What a pass keeps: the timers with at least two ticks left, each one tick shorter. */
  lemma PassKeeps<P>(ts: seq<Timer<P>>, t: Timer<P>)
    ensures t in Kept(Decremented(ts)) <==> t.current != 0 && Timer(t.current + 1, t.process) in ts
  {
    KeptMembers(Decremented(ts), t);
    DecrementedMembers(ts, t);
  }

  /** What a pass hands out: the processes with at most one tick left. */
  lemma PassExpires<P>(ts: seq<Timer<P>>, p: P)
    ensures p in Expired(Decremented(ts)) <==> Timer(0, p) in ts || Timer(1, p) in ts
  {
    ExpiredMembers(Decremented(ts), p);
    DecrementedMembers(ts, Timer(0, p));
  }
}
