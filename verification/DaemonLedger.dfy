/**
 The books over any run, whatever ids the clients use: a lease can also be
 overwritten, by one for a reused DELEGATE id or by an expiry of its task after an
 earlier one.
 */
module DaemonLedger {
  import opened DaemonConservation
  import opened DaemonIdle
  import opened DaemonModel
  import opened DaemonProtocol
  import opened DaemonSweep

  /** Leases created and neither on file nor settled. */
  function Missing(s: Sys): int {
    s.past.created - |s.d.leases| - |s.d.expired| - s.past.settled
  }

  /** How many leases one section overwrites. */
  ghost function OverwrittenBy(s: Sys, l: Label): nat {
    match l
    case CreateLease(call, _) => if call in s.calls && s.calls[call].Origin().id in s.d.leases then 1 else 0
    case Sweep(clock, _) => |OverdueLeases(s.d, clock) * s.d.expired.Keys|
    case _ => 0
  }

  lemma AddedOne<V>(m: map<Id, V>, t: Id, value: V)
    ensures |m[t := value]| == |m| + if t in m then 0 else 1
  {
    assert m[t := value].Keys == m.Keys + {t};
  }

  lemma CreateOverwrites(cfg: Config, s: Sys, l: Label, s': Sys)
    requires l.CreateLease? && Step(cfg, s, l, s')
    ensures Missing(s') == Missing(s) + OverwrittenBy(s, l)
  {
    var msg := s.calls[l.call].Origin();
    AddedOne(s.d.leases, msg.id, s'.d.leases[msg.id]);
  }

  lemma LeasesGone(leases: map<Id, Lease>, moved: set<Id>)
    requires forall t <- moved :: t in leases
    ensures |Without(leases, moved)| == |leases| - |moved|
  {
    var rest := Without(leases, moved).Keys;
    assert rest == leases.Keys - moved;
    assert leases.Keys == rest + moved && rest !! moved;
  }

  lemma ExpiredGained(expired: map<Id, Lease>, moved: set<Id>, expired': map<Id, Lease>)
    requires forall t <- expired' :: t in moved || t in expired
    requires forall t <- moved :: t in expired'
    requires forall t <- expired :: t in expired'
    ensures |expired'| == |expired| + |moved| - |moved * expired.Keys|
  {
    assert expired'.Keys == moved + expired.Keys;
  }

  lemma MovedCount(leases: map<Id, Lease>, expired: map<Id, Lease>, moved: set<Id>,
                   leases': map<Id, Lease>, expired': map<Id, Lease>)
    requires LeasesMoved(leases, expired, moved, leases', expired')
    ensures |leases| + |expired| == |leases'| + |expired'| + |moved * expired.Keys|
  {
    LeasesGone(leases, moved);
    forall t | t in expired
      ensures t in expired'
    {
    }
    ExpiredGained(expired, moved, expired');
  }

  lemma SweepOverwrites(cfg: Config, s: Sys, l: Label, s': Sys)
    requires l.Sweep? && Step(cfg, s, l, s')
    ensures Missing(s') == Missing(s) + OverwrittenBy(s, l)
  {
    SweepMovesExactlyTheOverdue(s.d, l.order, l.clock, s'.d);
    MovedCount(s.d.leases, s.d.expired, OverdueLeases(s.d, l.clock), s'.d.leases, s'.d.expired);
  }

  lemma OthersOverwriteNothing(cfg: Config, s: Sys, l: Label, s': Sys)
    requires !l.CreateLease? && !l.NotifyIn? && !l.Sweep? && Step(cfg, s, l, s')
    ensures Missing(s') == Missing(s) && OverwrittenBy(s, l) == 0
  {
  }

  lemma StepOverwrites(cfg: Config, s: Sys, l: Label, s': Sys)
    requires Step(cfg, s, l, s')
    ensures Missing(s') == Missing(s) + OverwrittenBy(s, l)
  {
    match l
    case CreateLease(_, _) => CreateOverwrites(cfg, s, l, s');
    case NotifyIn(m, clock) =>
      if !m.status.SaysAck? { NotifiedCount(s.d, m, clock, s'.d); }
    case Sweep(_, _) => SweepOverwrites(cfg, s, l, s');
    case _ => OthersOverwriteNothing(cfg, s, l, s');
  }

  // ---- over a run ----------------------------------------------------------

  ghost function Overwritten(states: seq<Sys>, labels: seq<Label>, n: nat): nat
    requires n <= |labels| && |states| == |labels| + 1
  {
    if n == 0 then 0 else Overwritten(states, labels, n - 1) + OverwrittenBy(states[n - 1], labels[n - 1])
  }

  ghost predicate OverwritesAt(states: seq<Sys>, labels: seq<Label>) {
    && |states| == |labels| + 1 && Missing(states[0]) == 0
    && forall i :: 0 <= i < |labels| ==> Missing(states[i + 1]) == Missing(states[i]) + OverwrittenBy(states[i], labels[i])
  }

  lemma RunOverwrites(cfg: Config, states: seq<Sys>, labels: seq<Label>)
    requires Run(cfg, states, labels)
    ensures OverwritesAt(states, labels)
  {
    forall i | 0 <= i < |labels|
      ensures Missing(states[i + 1]) == Missing(states[i]) + OverwrittenBy(states[i], labels[i])
    {
      StepOverwrites(cfg, states[i], labels[i], states[i + 1]);
    }
  }

  lemma {:induction false} OverwritesAddUp(states: seq<Sys>, labels: seq<Label>, n: nat)
    requires OverwritesAt(states, labels) && n < |states|
    ensures Missing(states[n]) == Overwritten(states, labels, n)
    ensures Overwritten(states, labels, n) == 0 <==> forall i :: 0 <= i < n ==> OverwrittenBy(states[i], labels[i]) == 0
  {
    if n > 0 {
      OverwritesAddUp(states, labels, n - 1);
    }
  }

  /**
   In every state of every run: leases created = live + expired + settled + overwritten.
   So the books balance exactly when no section has overwritten a lease.
   */
  lemma {:induction false} BooksBalanceExactly(cfg: Config, states: seq<Sys>, labels: seq<Label>, n: nat)
    requires Run(cfg, states, labels) && n < |states|
    ensures var s := states[n];
            s.past.created == |s.d.leases| + |s.d.expired| + s.past.settled + Overwritten(states, labels, n)
    ensures Balanced(states[n]) <==> forall i :: 0 <= i < n ==> OverwrittenBy(states[i], labels[i]) == 0
  {
    RunOverwrites(cfg, states, labels);
    OverwritesAddUp(states, labels, n);
  }

  /** The same DELEGATE twice: two leases created, one on file, none settled. */
  lemma ReusedIdOverwrites(cfg: Config, msg: Delegate, clock: Clock) returns (states: seq<Sys>, labels: seq<Label>)
    requires cfg.policy(msg) == Allow && msg.to in cfg.workers
    ensures Run(cfg, states, labels) && |labels| == 4
    ensures OverwrittenBy(states[3], labels[3]) == 1 && !Balanced(states[4])
  {
    var ask := DelegateIn(msg, 0, clock);
    var s1 := AskAgain(cfg, START, msg, clock);
    var s2 := LeaseIt(cfg, s1, 0, clock);
    var s3 := AskAgain(cfg, s2, msg, clock);
    var s4 := LeaseIt(cfg, s3, 1, clock);
    states, labels := [START, s1, s2, s3, s4], [ask, CreateLease(0, clock), ask, CreateLease(1, clock)];
    assert OverwrittenBy(s3, labels[3]) == 1;
    BooksBalanceExactly(cfg, states, labels, 4);
  }

  lemma AskAgain(cfg: Config, s: Sys, msg: Delegate, clock: Clock) returns (s': Sys)
    requires cfg.policy(msg) == Allow && msg.to in cfg.workers && 0 !in s.past.approvalIds
    ensures Step(cfg, s, DelegateIn(msg, 0, clock), s')
    ensures s'.d == s.d && s'.nextCall == s.nextCall + 1 && s'.past.approvalIds == s.past.approvalIds
    ensures s.nextCall in s'.calls && s'.calls[s.nextCall] == Delegation(msg, false)
  {
    s' := Sys(s.d, s.calls[s.nextCall := Delegation(msg, false)], s.nextCall + 1,
              s.past.(asked := s.past.asked + {msg.id}));
  }
}
