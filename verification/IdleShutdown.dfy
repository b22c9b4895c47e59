/**
 The idle-shutdown loop: one look at the daemon per tick, and a shutdown at the
 first tick that ends a long enough run of idle ones.
 */
module IdleShutdown {
  import opened Wrappers

  /** One tick: the clock when the idle period would begin, the clock when it is measured, and what was seen. */
  datatype Sample = Sample(start: nat, measured: nat, hasClients: bool, hasWork: bool)

  /** The monotonic clock, read twice per tick. */
  ghost predicate InClockOrder(samples: seq<Sample>) {
    && (forall i :: 0 <= i < |samples| ==> samples[i].start <= samples[i].measured)
    && (forall i, j :: 0 <= i < j < |samples| ==> samples[i].measured <= samples[j].start)
  }

  ghost predicate IdleFromTo(samples: seq<Sample>, i: nat, j: nat)
    requires i <= j < |samples|
  {
    forall k :: i <= k <= j ==> !samples[k].hasClients && !samples[k].hasWork
  }

  /** Tick `j` ends consecutive idle ticks at least `idleAfter` apart. */
  ghost predicate Due(samples: seq<Sample>, idleAfter: nat, j: nat)
    requires j < |samples|
  {
    exists i :: 0 <= i <= j && IdleFromTo(samples, i, j) && samples[j].measured - samples[i].start >= idleAfter
  }

  /** The tick at which the daemon is shut down, if any of these is. */
  method Run(samples: seq<Sample>, idleAfter: nat) returns (fired: Option<nat>)
    requires InClockOrder(samples)
    ensures fired.None? ==> forall j :: 0 <= j < |samples| ==> !Due(samples, idleAfter, j)
    ensures fired.Some? ==> fired.value < |samples| && Due(samples, idleAfter, fired.value)
                            && forall j :: 0 <= j < fired.value ==> !Due(samples, idleAfter, j)
    ensures fired.Some? ==> !samples[fired.value].hasClients && !samples[fired.value].hasWork
  {
    var idleSince: Option<nat> := None;
    ghost var first := 0;
    for tick := 0 to |samples|
      invariant first <= tick && forall k :: first <= k < tick ==> !samples[k].hasClients && !samples[k].hasWork
      invariant first > 0 ==> samples[first - 1].hasClients || samples[first - 1].hasWork
      invariant idleSince == if first < tick then Some(samples[first].start) else None
      invariant forall j :: 0 <= j < tick ==> !Due(samples, idleAfter, j)
    {
      var sample := samples[tick];
      if sample.hasClients || sample.hasWork {
        idleSince, first := None, tick + 1;
        continue;
      }
      if idleSince.None? {
        idleSince := Some(sample.start);
      }
      DueFromTheFirst(samples, idleAfter, first, tick);
      if sample.measured - idleSince.value >= idleAfter {
        return Some(tick);
      }
    }
    fired := None;
  }

  /** It is enough to measure from the first tick of the idle run. */
  lemma DueFromTheFirst(samples: seq<Sample>, idleAfter: nat, first: nat, tick: nat)
    requires InClockOrder(samples) && first <= tick < |samples| && IdleFromTo(samples, first, tick)
    requires first > 0 ==> samples[first - 1].hasClients || samples[first - 1].hasWork
    ensures Due(samples, idleAfter, tick) <==> samples[tick].measured - samples[first].start >= idleAfter
  {
    if Due(samples, idleAfter, tick) {
      var i :| 0 <= i <= tick && IdleFromTo(samples, i, tick)
               && samples[tick].measured - samples[i].start >= idleAfter;
      assert i >= first;
    }
  }

  /**
   An idle daemon is not kept waiting: if every tick from `i` on is idle and the
   ticks are at most `gap` apart, one of them is due within `idleAfter + gap` of the
   first, provided the samples go on that long.
   */
  lemma {:induction false} IdleDaemonStops(samples: seq<Sample>, idleAfter: nat, gap: nat, i: nat)
    requires InClockOrder(samples) && i < |samples| && IdleFromTo(samples, i, |samples| - 1)
    requires forall k :: i < k < |samples| ==> samples[k].measured - samples[k - 1].measured <= gap
    requires samples[i].measured - samples[i].start <= gap
    requires samples[|samples| - 1].measured - samples[i].start >= idleAfter
    ensures exists j :: i <= j < |samples| && Due(samples, idleAfter, j)
                        && samples[j].measured - samples[i].start <= idleAfter + gap
  {
    var j := i;
    while samples[j].measured - samples[i].start < idleAfter
      invariant i <= j < |samples|
      invariant samples[j].measured - samples[i].start <= idleAfter + gap
      decreases |samples| - j
    {
      j := j + 1;
    }
    assert IdleFromTo(samples, i, j);
    assert Due(samples, idleAfter, j);
  }
}
