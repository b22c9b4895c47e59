/**
 The sliding-window screenshot limiter: a deque of grant times that is pruned on
 every request, proved to decide as counting over the full log of grants would.
 Times are nanoseconds of the monotonic clock.
 */
module ScreenshotLimiter {

  const NANOS_PER_SECOND := 1_000_000_000
  const TWO_TO_THE_32 := 0x1_0000_0000

  type U32 = n: nat | n < TWO_TO_THE_32

  datatype Limit = Limit(maxActions: U32, perSeconds: nat) {
    function Window(): nat { perSeconds * NANOS_PER_SECOND }

    /** A zero in either place switches the limit off. */
    predicate Off() { maxActions == 0 || perSeconds == 0 }
  }

  /** What one call finds: the time, and how creating the directory and the sandbox test turn out. */
  datatype Request = Request(now: nat, directoryOk: bool, allowed: bool)

  datatype Outcome = Granted | Disabled | Limited | NoDirectory | OutsideSandbox

  // ---- counting over the full log ------------------------------------------

  /** `Instant::duration_since`, which is zero for a later instant. */
  function Since(now: nat, earlier: nat): nat {
    if earlier <= now then now - earlier else 0
  }

  /** The grants not older than the window. */
  ghost function Recent(grants: seq<nat>, now: nat, window: nat): (r: seq<nat>)
    ensures |r| <= |grants|
  {
    if grants == [] then []
    else
      var last := grants[|grants| - 1];
      Recent(grants[..|grants| - 1], now, window) + if Since(now, last) <= window then [last] else []
  }

  ghost function Decide(enabled: bool, limit: Limit, grants: seq<nat>, r: Request): Outcome {
    if !enabled then Disabled
    else if !limit.Off() && |Recent(grants, r.now, limit.Window())| >= limit.maxActions then Limited
    else if !r.directoryOk then NoDirectory
    else if !r.allowed then OutsideSandbox
    else Granted
  }

  /** The times of the grants over a whole run of requests. */
  ghost function GrantLog(enabled: bool, limit: Limit, run: seq<Request>): (grants: seq<nat>) {
    if run == [] then []
    else
      var earlier, r := GrantLog(enabled, limit, run[..|run| - 1]), run[|run| - 1];
      earlier + if Decide(enabled, limit, earlier, r) == Granted then [r.now] else []
  }

  ghost predicate Sorted(times: seq<nat>) {
    forall i, j :: 0 <= i < j < |times| ==> times[i] <= times[j]
  }

  ghost predicate InClockOrder(run: seq<Request>) {
    forall i, j :: 0 <= i < j < |run| ==> run[i].now <= run[j].now
  }

  ghost predicate NoneAfter(times: seq<nat>, now: nat) {
    forall i :: 0 <= i < |times| ==> times[i] <= now
  }

  lemma {:induction false} GrantsAreInClockOrder(enabled: bool, limit: Limit, run: seq<Request>, now: nat)
    requires InClockOrder(run) && forall i :: 0 <= i < |run| ==> run[i].now <= now
    ensures Sorted(GrantLog(enabled, limit, run)) && NoneAfter(GrantLog(enabled, limit, run), now)
  {
    if run != [] {
      var n := |run| - 1;
      GrantsAreInClockOrder(enabled, limit, run[..n], run[n].now);
    }
  }

  // ---- the limiter ---------------------------------------------------------

  class ScreenshotControl {
    const enabled: bool
    const limit: Limit
    var history: seq<nat>
    ghost var run: seq<Request>
    ghost var grants: seq<nat>
    ghost var clock: nat

    /** From now on the history stands for the grants of the run so far. */
    ghost predicate Valid()
      reads this
    {
      && InClockOrder(run) && (forall i :: 0 <= i < |run| ==> run[i].now <= clock)
      && grants == GrantLog(enabled, limit, run)
      && Holds(limit, grants, history, clock)
    }

    constructor (enabled: bool, limit: Limit)
      ensures Valid() && this.enabled == enabled && this.limit == limit && run == [] && clock == 0
    {
      this.enabled, this.limit := enabled, limit;
      history, run, grants, clock := [], [], [], 0;
    }

    method Prune(now: nat)
      modifies `history
      ensures history == Pruned(limit, old(history), now)
    {
      if limit.Off() {
        history := [];
        return;
      }
      var window := limit.Window();
      while history != [] && Since(now, history[0]) > window
        invariant Kept(history, now, window) == Kept(old(history), now, window)
        decreases |history|
      {
        history := history[1..];
      }
    }

    /** The decision is the one counting over all grants so far would make, and the history what it would count. */
    method PrepareJob(r: Request) returns (outcome: Outcome)
      requires Valid() && clock <= r.now
      modifies this
      ensures Valid() && run == old(run) + [r] && clock == r.now
      ensures outcome == Decide(enabled, limit, old(grants), r)
      ensures Answers(enabled, limit, old(grants), r, outcome)
      ensures grants == old(grants) + if outcome == Granted then [r.now] else []
      ensures enabled && !limit.Off() ==> history == Recent(grants, r.now, limit.Window())
      ensures enabled && limit.Off() ==> history == if outcome == Granted then [r.now] else []
      ensures !enabled ==> history == old(history)
    {
      RunGrows(enabled, limit, run, r, clock);
      GrantsAreInClockOrder(enabled, limit, run, r.now);
      DecisionsAnswer(enabled, limit, grants, r);
      HoldsLater(limit, grants, history, clock, r.now);
      run, clock := run + [r], r.now;
      if !enabled {
        return Disabled;
      }
      Prune(r.now);
      if limit.maxActions > 0 && AsU32(|history|) >= limit.maxActions {
        return Limited;
      }
      if !r.directoryOk {
        return NoDirectory;
      }
      if !r.allowed {
        return OutsideSandbox;
      }
      HoldsOneMore(limit, grants, history, r.now);
      history, grants := history + [r.now], grants + [r.now];
      outcome := Granted;
    }
  }

  /** The cast of the deque's length. */
  function AsU32(n: nat): (r: nat)
    ensures n < TWO_TO_THE_32 ==> r == n
  {
    n % TWO_TO_THE_32
  }

  lemma {:induction false} RunGrows(enabled: bool, limit: Limit, run: seq<Request>, r: Request, clock: nat)
    requires InClockOrder(run) && clock <= r.now && forall i :: 0 <= i < |run| ==> run[i].now <= clock
    ensures InClockOrder(run + [r]) && forall i :: 0 <= i < |run + [r]| ==> (run + [r])[i].now <= r.now
    ensures var grants := GrantLog(enabled, limit, run);
            GrantLog(enabled, limit, run + [r])
            == grants + if Decide(enabled, limit, grants, r) == Granted then [r.now] else []
  {
    assert (run + [r])[..|run|] == run;
  }

  lemma {:induction false} HoldsLater(limit: Limit, grants: seq<nat>, history: seq<nat>, clock: nat, now: nat)
    requires Holds(limit, grants, history, clock) && clock <= now
    ensures Holds(limit, grants, history, now)
    ensures Holds(limit, grants, Pruned(limit, history, now), now)
    ensures !limit.Off() ==> Pruned(limit, history, now) == Recent(grants, now, limit.Window())
  {
    if !limit.Off() {
      var kept := Pruned(limit, history, now);
      KeptIsSmaller(history, now, limit.Window(), now);
      forall later | now <= later
        ensures Kept(kept, later, limit.Window()) == Recent(grants, later, limit.Window())
      {
        KeptOfKept(history, now, later, limit.Window());
        assert clock <= later;
      }
    }
  }

  lemma {:induction false} KeptOfKept(history: seq<nat>, now: nat, later: nat, window: nat)
    requires now <= later
    ensures Kept(Kept(history, now, window), later, window) == Kept(history, later, window)
  {
    if history != [] && Since(now, history[0]) > window {
      KeptOfKept(history[1..], now, later, window);
    }
  }

  lemma {:induction false} KeptIsSmaller(history: seq<nat>, now: nat, window: nat, bound: nat)
    requires NoneAfter(history, bound)
    ensures |Kept(history, now, window)| <= |history| && NoneAfter(Kept(history, now, window), bound)
  {
    if history != [] && Since(now, history[0]) > window {
      KeptIsSmaller(history[1..], now, window, bound);
    }
  }

  lemma {:induction false} HoldsOneMore(limit: Limit, grants: seq<nat>, history: seq<nat>, now: nat)
    requires Holds(limit, grants, history, now) && (!limit.Off() ==> |history| < limit.maxActions)
    ensures Holds(limit, grants + [now], history + [now], now)
    ensures var window := limit.Window();
            Recent(grants + [now], now, window) == Recent(grants, now, window) + [now]
  {
    var window := limit.Window();
    assert (grants + [now])[..|grants|] == grants;
    if !limit.Off() {
      forall later | now <= later
        ensures Kept(history + [now], later, window) == Recent(grants + [now], later, window)
      {
        KeptOneMore(history, now, later, window);
      }
    }
  }

  lemma {:induction false} KeptOneMore(history: seq<nat>, now: nat, later: nat, window: nat)
    requires now <= later && NoneAfter(history, now)
    ensures Kept(history + [now], later, window)
            == Kept(history, later, window) + if Since(later, now) <= window then [now] else []
  {
    if history != [] {
      assert (history + [now])[1..] == history[1..] + [now];
      if Since(later, history[0]) > window {
        KeptOneMore(history[1..], now, later, window);
      }
    }
  }

  /** What the pruning loop leaves: the front is dropped for as long as it is too old. */
  function Kept(history: seq<nat>, now: nat, window: nat): seq<nat> {
    if history != [] && Since(now, history[0]) > window then Kept(history[1..], now, window) else history
  }

  function Pruned(limit: Limit, history: seq<nat>, now: nat): seq<nat> {
    if limit.Off() then [] else Kept(history, now, limit.Window())
  }

  /** From `now` on, pruning the history leaves what counting would find in the full log. */
  ghost predicate Holds(limit: Limit, grants: seq<nat>, history: seq<nat>, now: nat) {
    && NoneAfter(history, now)
    && (!limit.Off() ==>
          && |history| <= limit.maxActions
          && forall later :: now <= later ==>
               Kept(history, later, limit.Window()) == Recent(grants, later, limit.Window()))
  }

  // ---- what the limit means over a run -------------------------------------

  /** How many of the grants lie in the closed interval from `from` to `to`. */
  ghost function CountIn(grants: seq<nat>, from: nat, to: nat): nat {
    if grants == [] then 0
    else CountIn(grants[..|grants| - 1], from, to) + if from <= grants[|grants| - 1] <= to then 1 else 0
  }

  lemma {:induction false} WindowIsCounted(grants: seq<nat>, from: nat, to: nat, now: nat, window: nat)
    requires from <= now <= from + window && NoneAfter(grants, now)
    ensures CountIn(grants, from, to) <= |Recent(grants, now, window)|
  {
    if grants != [] {
      WindowIsCounted(grants[..|grants| - 1], from, to, now, window);
    }
  }

  /** Whatever is asked and when, no closed interval as long as the window holds more grants than allowed. */
  lemma {:induction false} NoWindowExceedsTheLimit(enabled: bool, limit: Limit, run: seq<Request>, from: nat, to: nat)
    requires !limit.Off() && InClockOrder(run) && from <= to <= from + limit.Window()
    ensures CountIn(GrantLog(enabled, limit, run), from, to) <= limit.maxActions
  {
    if run != [] {
      var n := |run| - 1;
      var earlier, now := GrantLog(enabled, limit, run[..n]), run[n].now;
      NoWindowExceedsTheLimit(enabled, limit, run[..n], from, to);
      if Decide(enabled, limit, earlier, run[n]) == Granted {
        assert (earlier + [now])[..|earlier|] == earlier;
        if from <= now <= to {
          GrantsAreInClockOrder(enabled, limit, run[..n], now);
          WindowIsCounted(earlier, from, to, now, limit.Window());
        }
      } else {
        assert GrantLog(enabled, limit, run) == earlier;
      }
    }
  }

  /** The limit is not lower than configured either: a request is refused for the rate only by a full window. */
  lemma {:induction false} RefusalMeansAFullWindow(enabled: bool, limit: Limit, run: seq<Request>, r: Request)
    requires InClockOrder(run + [r])
    ensures var grants := GrantLog(enabled, limit, run);
            var from := if r.now <= limit.Window() then 0 else r.now - limit.Window();
            Decide(enabled, limit, grants, r) == Limited <==>
            enabled && !limit.Off() && CountIn(grants, from, r.now) == limit.maxActions
  {
    var grants := GrantLog(enabled, limit, run);
    var from := if r.now <= limit.Window() then 0 else r.now - limit.Window();
    assert forall i :: 0 <= i < |run| ==> run[i] == (run + [r])[i];
    assert (run + [r])[|run|] == r;
    GrantsAreInClockOrder(enabled, limit, run, r.now);
    RecentIsTheWindow(grants, from, r.now, limit.Window());
    if !limit.Off() {
      NoWindowExceedsTheLimit(enabled, limit, run, from, r.now);
    }
  }

  lemma {:induction false} RecentIsTheWindow(grants: seq<nat>, from: nat, now: nat, window: nat)
    requires from == (if now <= window then 0 else now - window) && NoneAfter(grants, now)
    ensures |Recent(grants, now, window)| == CountIn(grants, from, now)
  {
    if grants != [] {
      assert grants[|grants| - 1] <= now;
      RecentIsTheWindow(grants[..|grants| - 1], from, now, window);
    }
  }

  // ---- who is granted and who is refused for what --------------------------

  /** As many grants as allowed lie in the closed interval of the window's length that ends now. */
  ghost predicate Full(limit: Limit, grants: seq<nat>, now: nat) {
    && limit.maxActions > 0 && limit.perSeconds > 0
    && CountIn(grants, if now <= limit.perSeconds * 1_000_000_000 then 0 else now - limit.perSeconds * 1_000_000_000, now)
       >= limit.maxActions
  }

  /** Of several defects the first is named: the switch, the rate, the directory, the sandbox. */
  ghost predicate Answers(enabled: bool, limit: Limit, grants: seq<nat>, r: Request, outcome: Outcome) {
    && (outcome == Granted <==> enabled && !Full(limit, grants, r.now) && r.directoryOk && r.allowed)
    && (outcome == Disabled <==> !enabled)
    && (outcome == Limited <==> enabled && Full(limit, grants, r.now))
    && (outcome == NoDirectory <==> enabled && !Full(limit, grants, r.now) && !r.directoryOk)
    && (outcome == OutsideSandbox <==> enabled && !Full(limit, grants, r.now) && r.directoryOk && !r.allowed)
  }

  lemma DecisionsAnswer(enabled: bool, limit: Limit, grants: seq<nat>, r: Request)
    requires NoneAfter(grants, r.now)
    ensures Answers(enabled, limit, grants, r, Decide(enabled, limit, grants, r))
  {
    var from := if r.now <= limit.Window() then 0 else r.now - limit.Window();
    RecentIsTheWindow(grants, from, r.now, limit.Window());
  }

  /** Positions of requests, in order, whose times are the times of the log. */
  ghost predicate PicksRequests(run: seq<Request>, log: seq<nat>, positions: seq<nat>) {
    && |positions| == |log|
    && (forall k :: 0 <= k < |log| ==> positions[k] < |run| && run[positions[k]].now == log[k])
    && (forall k, l :: 0 <= k < l < |log| ==> positions[k] < positions[l])
  }

  ghost predicate ShouldGrant(enabled: bool, limit: Limit, run: seq<Request>, j: nat)
    requires j < |run|
  {
    && enabled && run[j].directoryOk && run[j].allowed
    && !Full(limit, GrantLog(enabled, limit, run[..j]), run[j].now)
  }

  /**
   Over any run with a clock that does not go back, the log of grants holds the times
   of exactly those requests that came with the capability switched on, a directory, a
   place inside the sandbox and a window that was not full.
   */
  lemma {:induction false} GrantsAreTheAllowed(enabled: bool, limit: Limit, run: seq<Request>) returns (positions: seq<nat>)
    requires InClockOrder(run)
    ensures PicksRequests(run, GrantLog(enabled, limit, run), positions)
    ensures forall j :: 0 <= j < |run| ==> (j in positions <==> ShouldGrant(enabled, limit, run, j))
  {
    positions := [];
    if run != [] {
      var n := |run| - 1;
      var earlier := GrantLog(enabled, limit, run[..n]);
      var before := GrantsAreTheAllowed(enabled, limit, run[..n]);
      GrantsAreInClockOrder(enabled, limit, run[..n], run[n].now);
      DecisionsAnswer(enabled, limit, earlier, run[n]);
      positions := before + if Decide(enabled, limit, earlier, run[n]) == Granted then [n] else [];
      forall j | 0 <= j < n
        ensures j in before <==> ShouldGrant(enabled, limit, run, j)
      {
        assert run[..n][..j] == run[..j] && run[..n][j] == run[j];
      }
      assert n !in before;
    }
  }
}
