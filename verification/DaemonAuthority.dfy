/**
 Who may cause a lease: every lease in any run goes back to a DELEGATE the policy
 allowed, or to one it held and whose approval was then granted, once.
 */
module DaemonAuthority {
  import opened Wrappers
  import opened DaemonModel
  import opened DaemonKeeps
  import opened DaemonProtocol

  /** Section `j` consumes the pending approval `a`. */
  ghost predicate Consumes(states: seq<Sys>, labels: seq<Label>, j: nat, a: Id) {
    && j < |labels| < |states|
    && labels[j].Decide? && labels[j].approvalId == a && a in states[j].d.approvals
  }

  /** Section `j` is a DELEGATE that the policy holds, and it files approval `a` for it. */
  ghost predicate Holds(cfg: Config, labels: seq<Label>, j: nat, a: Id, msg: Delegate) {
    && j < |labels|
    && labels[j].DelegateIn? && labels[j].approvalId == a && labels[j].msg == msg
    && cfg.policy(msg) == NeedApproval
  }

  ghost predicate HeldBefore(cfg: Config, labels: seq<Label>, n: int, a: Id, msg: Delegate) {
    exists j :: 0 <= j < n && Holds(cfg, labels, j, a, msg)
  }

  /** Section `j` launches the handler `id`, and what it then held justifies `call`. */
  ghost predicate Launches(cfg: Config, states: seq<Sys>, labels: seq<Label>, j: nat, id: nat, call: Call) {
    && j < |labels| < |states|
    && states[j].nextCall == id
    && match call
       case Delegation(msg, _) =>
         labels[j].DelegateIn? && labels[j].msg == msg
         && DelegateNext(cfg, states[j].d, msg, labels[j].clock) == Some(call)
       case RefusalTaken(a, pending, _) =>
         Consumes(states, labels, j, a) && states[j].d.approvals[a] == pending && labels[j].verdict == Refused
       case _ =>
         Consumes(states, labels, j, call.approvalId) && states[j].d.approvals[call.approvalId] == call.pending
         && labels[j].verdict == Granted
         && HeldBefore(cfg, labels, j, call.approvalId, call.pending.original)
  }

  ghost predicate LaunchedBefore(cfg: Config, states: seq<Sys>, labels: seq<Label>, n: int, id: nat, call: Call) {
    exists j :: 0 <= j < n && Launches(cfg, states, labels, j, id, call)
  }

  ghost predicate CallsLaunched(cfg: Config, states: seq<Sys>, labels: seq<Label>, n: int, s: Sys) {
    forall id <- s.calls :: id < s.nextCall && LaunchedBefore(cfg, states, labels, n, id, s.calls[id])
  }

  ghost predicate ApprovalsHeld(cfg: Config, labels: seq<Label>, n: int, s: Sys) {
    && s.d.approvals.Keys <= s.past.approvalIds
    && forall a <- s.d.approvals :: HeldBefore(cfg, labels, n, a, s.d.approvals[a].original)
  }

  /** Everything the daemon has in hand after `n` sections has its origin among them. */
  ghost predicate Accounted(cfg: Config, states: seq<Sys>, labels: seq<Label>, n: nat)
    requires n < |states|
  {
    CallsLaunched(cfg, states, labels, n, states[n]) && ApprovalsHeld(cfg, labels, n, states[n])
  }

  lemma HeldLater(cfg: Config, labels: seq<Label>, n: int, a: Id, msg: Delegate)
    requires HeldBefore(cfg, labels, n, a, msg)
    ensures HeldBefore(cfg, labels, n + 1, a, msg)
  {
    var j :| 0 <= j < n && Holds(cfg, labels, j, a, msg);
    assert Holds(cfg, labels, j, a, msg) && j < n + 1;
  }

  /** A section either leaves a held approval as it was, or files it afresh. */
  lemma ApprovalsAccounted(cfg: Config, states: seq<Sys>, labels: seq<Label>, n: nat)
    requires Run(cfg, states, labels) && n < |labels| && Accounted(cfg, states, labels, n)
    ensures ApprovalsHeld(cfg, labels, n + 1, states[n + 1])
  {
    var s, l, s' := states[n], labels[n], states[n + 1];
    ApprovalsChange(cfg, s, l, s');
    forall a | a in s'.d.approvals
      ensures HeldBefore(cfg, labels, n + 1, a, s'.d.approvals[a].original)
    {
      if a in s.d.approvals && s'.d.approvals[a] == s.d.approvals[a] {
        HeldLater(cfg, labels, n, a, s.d.approvals[a].original);
      } else {
        assert Holds(cfg, labels, n, a, s'.d.approvals[a].original);
      }
    }
  }

  lemma ApprovalsChange(cfg: Config, s: Sys, l: Label, s': Sys)
    requires Step(cfg, s, l, s')
    ensures s.past.approvalIds <= s'.past.approvalIds
    ensures forall a <- s'.d.approvals ::
              || (a in s.d.approvals && s'.d.approvals[a] == s.d.approvals[a])
              || (l.DelegateIn? && cfg.policy(l.msg) == NeedApproval && a == l.approvalId
                  && a in s'.past.approvalIds && s'.d.approvals[a].original == l.msg)
    ensures l.Decide? ==> l.approvalId !in s'.d.approvals
    ensures l.DelegateIn? && cfg.policy(l.msg) == NeedApproval ==> l.approvalId !in s.past.approvalIds
  {
    match l
    case Sweep(clock, order) =>
      var mid := SweptInTwo(s.d, order, clock, s'.d);
      SweepLeavesApprovals(s.d, order, clock, mid);
    case _ =>
  }

  lemma CallsChange(cfg: Config, s: Sys, l: Label, s': Sys)
    requires Step(cfg, s, l, s')
    ensures s.nextCall <= s'.nextCall
    ensures forall id <- s'.calls ::
              || (id in s.calls && s'.calls[id] == s.calls[id])
              || (id == s.nextCall < s'.nextCall
                  && ((l.DelegateIn? && DelegateNext(cfg, s.d, l.msg, l.clock) == Some(s'.calls[id]))
                      || (l.Decide? && DecisionNext(s.d, l.approvalId, l.approver, l.verdict) == Some(s'.calls[id]))))
              || (id in s.calls && s.calls[id].GrantTaken?
                  && s'.calls[id] == Approved(s.calls[id].approvalId, s.calls[id].pending))
  {
  }

  lemma CallsAccounted(cfg: Config, states: seq<Sys>, labels: seq<Label>, n: nat)
    requires Run(cfg, states, labels) && n < |labels| && Accounted(cfg, states, labels, n)
    ensures CallsLaunched(cfg, states, labels, n + 1, states[n + 1])
  {
    var s, l, s' := states[n], labels[n], states[n + 1];
    CallsChange(cfg, s, l, s');
    forall id | id in s'.calls
      ensures LaunchedBefore(cfg, states, labels, n + 1, id, s'.calls[id])
    {
      if id in s.calls {
        assert id < s.nextCall;
        var j :| 0 <= j < n && Launches(cfg, states, labels, j, id, s.calls[id]);
        assert Launches(cfg, states, labels, j, id, s'.calls[id]);
      } else {
        assert Launches(cfg, states, labels, n, id, s'.calls[id]);
      }
    }
  }

  lemma {:induction false} AlwaysAccounted(cfg: Config, states: seq<Sys>, labels: seq<Label>, n: nat)
    requires Run(cfg, states, labels) && n < |states|
    ensures Accounted(cfg, states, labels, n)
  {
    if n > 0 {
      AlwaysAccounted(cfg, states, labels, n - 1);
      ApprovalsAccounted(cfg, states, labels, n - 1);
      CallsAccounted(cfg, states, labels, n - 1);
    }
  }

  /** The two ways a lease can be authorised, by sections that came before section `i`. */
  ghost predicate Authorised(cfg: Config, states: seq<Sys>, labels: seq<Label>, i: nat, id: nat, msg: Delegate) {
    exists j :: 0 <= j < i && AuthorisedAt(cfg, states, labels, j, id, msg)
  }

  ghost predicate AuthorisedAt(cfg: Config, states: seq<Sys>, labels: seq<Label>, j: nat, id: nat, msg: Delegate) {
    && j < |labels| < |states|
    && states[j].nextCall == id
    && (if labels[j].DelegateIn? then
          && labels[j].msg == msg && cfg.policy(msg) == Allow
          && (msg.to in cfg.workers || IsAlive(states[j].d, msg.to, labels[j].clock))
        else
          && labels[j].Decide? && labels[j].verdict == Granted
          && Consumes(states, labels, j, labels[j].approvalId)
          && states[j].d.approvals[labels[j].approvalId].original == msg
          && HeldBefore(cfg, labels, j, labels[j].approvalId, msg))
  }

  /**
   Every lease created in a run was authorised earlier: by an Allow for a configured
   worker or a live client, or by a grant of an approval that was pending and that a
   NeedApproval had filed.
   */
  lemma EveryLeaseIsAuthorised(cfg: Config, states: seq<Sys>, labels: seq<Label>, i: nat)
    requires Run(cfg, states, labels) && i < |labels| && labels[i].CreateLease?
    ensures labels[i].call in states[i].calls
    ensures var msg := states[i].calls[labels[i].call].Origin();
            && cfg.policy(msg) != Deny
            && Authorised(cfg, states, labels, i, labels[i].call, msg)
            && msg.id in states[i + 1].d.leases
            && states[i + 1].d.leases[msg.id].assignedTo == msg.to
            && states[i + 1].d.leases[msg.id].originalFrom == msg.from
  {
    AlwaysAccounted(cfg, states, labels, i);
    assert Step(cfg, states[i], labels[i], states[i + 1]);
    var id := labels[i].call;
    var call := states[i].calls[id];
    var j :| 0 <= j < i && Launches(cfg, states, labels, j, id, call);
    assert AuthorisedAt(cfg, states, labels, j, id, call.Origin());
    if call.Approved? {
      var k :| 0 <= k < j && Holds(cfg, labels, k, call.approvalId, call.pending.original);
    }
  }

  lemma {:induction false} CallIdsGrow(cfg: Config, states: seq<Sys>, labels: seq<Label>, i: nat, j: nat)
    requires Run(cfg, states, labels) && i <= j < |states|
    ensures states[i].nextCall <= states[j].nextCall
    ensures forall id :: id < states[i].nextCall && id !in states[i].calls ==> id !in states[j].calls
  {
    if i < j {
      CallIdsGrow(cfg, states, labels, i, j - 1);
      CallsChange(cfg, states[j - 1], labels[j - 1], states[j]);
    }
  }

  /** One authorisation, one lease: each of two leases has its own, and no section authorises both. */
  lemma OneLeasePerAuthorisation(cfg: Config, states: seq<Sys>, labels: seq<Label>, i: nat, j: nat)
    requires Run(cfg, states, labels) && i < j < |labels|
    requires labels[i].CreateLease? && labels[j].CreateLease?
    ensures labels[i].call in states[i].calls && labels[j].call in states[j].calls
    ensures var first, second := states[i].calls[labels[i].call].Origin(), states[j].calls[labels[j].call].Origin();
            && Authorised(cfg, states, labels, i, labels[i].call, first)
            && Authorised(cfg, states, labels, j, labels[j].call, second)
            && forall k :: !(AuthorisedAt(cfg, states, labels, k, labels[i].call, first)
                             && AuthorisedAt(cfg, states, labels, k, labels[j].call, second))
  {
    EveryLeaseIsAuthorised(cfg, states, labels, i);
    EveryLeaseIsAuthorised(cfg, states, labels, j);
    assert labels[i].call != labels[j].call by {
      CallsDiffer(cfg, states, labels, i, j);
    }
  }

  /** The handler a lease is created by never creates another. */
  lemma CallsDiffer(cfg: Config, states: seq<Sys>, labels: seq<Label>, i: nat, j: nat)
    requires Run(cfg, states, labels) && i < j < |labels|
    requires labels[i].CreateLease? && labels[j].CreateLease?
    ensures labels[i].call != labels[j].call
  {
    AlwaysAccounted(cfg, states, labels, i);
    assert Step(cfg, states[i], labels[i], states[i + 1]);
    CallIdsGrow(cfg, states, labels, i + 1, j);
    assert Step(cfg, states[j], labels[j], states[j + 1]);
  }

  /** An approval that is gone stays gone, because approval ids are not reused. */
  lemma {:induction false} GoneForGood(cfg: Config, states: seq<Sys>, labels: seq<Label>, i: nat, j: nat, a: Id)
    requires Run(cfg, states, labels) && i <= j < |states|
    requires a in states[i].past.approvalIds && a !in states[i].d.approvals
    ensures a in states[j].past.approvalIds && a !in states[j].d.approvals
  {
    if i < j {
      GoneForGood(cfg, states, labels, i, j - 1, a);
      ApprovalsChange(cfg, states[j - 1], labels[j - 1], states[j]);
    }
  }

  /** No approval is consumed twice, whatever the verdicts and however the handlers interleave. */
  lemma ApprovalsAreConsumedOnce(cfg: Config, states: seq<Sys>, labels: seq<Label>, i: nat, j: nat, a: Id)
    requires Run(cfg, states, labels) && i < j < |labels|
    requires Consumes(states, labels, i, a)
    ensures !Consumes(states, labels, j, a)
  {
    AlwaysAccounted(cfg, states, labels, i);
    ApprovalsChange(cfg, states[i], labels[i], states[i + 1]);
    GoneForGood(cfg, states, labels, i + 1, j, a);
  }

  /** What a lease takes over from the DELEGATE message, and the fifteen minutes it lasts. */
  ghost predicate IsFor(lease: Lease, msg: Delegate, clock: Clock) {
    && lease.taskId == msg.id && lease.assignedTo == msg.to && lease.originalFrom == msg.from
    && lease.returnTo == msg.returnTo && lease.deadline == clock.instant + 900_000_000_000
  }

  /** Section `i` creates the lease `lease`, for the message its handler goes back to. */
  ghost predicate Creates(states: seq<Sys>, labels: seq<Label>, i: nat, lease: Lease) {
    && i < |labels| < |states|
    && labels[i].CreateLease? && labels[i].call in states[i].calls
    && IsFor(lease, states[i].calls[labels[i].call].Origin(), labels[i].clock)
    && lease.taskId in states[i + 1].d.leases && states[i + 1].d.leases[lease.taskId] == lease
  }

  ghost predicate Created(states: seq<Sys>, labels: seq<Label>, n: int, lease: Lease) {
    exists i :: 0 <= i < n && Creates(states, labels, i, lease)
  }

  ghost predicate LeasesCreated(states: seq<Sys>, labels: seq<Label>, n: nat)
    requires n < |states|
  {
    && (forall t <- states[n].d.leases :: Created(states, labels, n, states[n].d.leases[t]))
    && (forall t <- states[n].d.expired :: Created(states, labels, n, states[n].d.expired[t]))
  }

  /** Leases are carried over or moved to the expired ones, never altered. */
  ghost predicate Carried(leases: map<Id, Lease>, expired: map<Id, Lease>,
                          leases': map<Id, Lease>, expired': map<Id, Lease>)
  {
    && (forall t <- leases' :: t in leases && leases'[t] == leases[t])
    && (forall t <- expired' :: || (t in expired && expired'[t] == expired[t])
                                || (t in leases && expired'[t] == leases[t]))
  }

  lemma LeasesChange(cfg: Config, s: Sys, l: Label, s': Sys)
    requires Step(cfg, s, l, s') && !l.CreateLease?
    ensures Carried(s.d.leases, s.d.expired, s'.d.leases, s'.d.expired)
  {
    match l
    case Sweep(clock, order) =>
      var mid := SweptInTwo(s.d, order, clock, s'.d);
      SweepMovesLeases(s.d, order, clock, mid);
    case _ =>
  }

  lemma {:induction false} SweepMovesLeases(d: DState, order: seq<Id>, clock: Clock, d': DState)
    requires AllExpired(d, order, clock, d')
    ensures Carried(d.leases, d.expired, d'.leases, d'.expired)
    decreases |order|
  {
    if order != [] {
      var n := |order| - 1;
      var mid := LastExpiry(d, order, clock, d');
      SweepMovesLeases(d, order[..n], clock, mid);
    }
  }

  lemma CreatedLeases(cfg: Config, s: Sys, l: Label, s': Sys)
    requires Step(cfg, s, l, s') && l.CreateLease?
    ensures var msg := s.calls[l.call].Origin();
            var t := msg.id;
            && t in s'.d.leases && IsFor(s'.d.leases[t], msg, l.clock)
            && s'.d.leases == s.d.leases[t := s'.d.leases[t]] && s'.d.expired == s.d.expired
  {
  }

  /** Every lease on file, live or expired, was put there by a section that created it. */
  lemma {:induction false} EveryLeaseOnFileWasCreated(cfg: Config, states: seq<Sys>, labels: seq<Label>, n: nat)
    requires Run(cfg, states, labels) && n < |states|
    ensures LeasesCreated(states, labels, n)
  {
    if n > 0 {
      EveryLeaseOnFileWasCreated(cfg, states, labels, n - 1);
      var s, l, s' := states[n - 1], labels[n - 1], states[n];
      if l.CreateLease? {
        CreatedLeases(cfg, s, l, s');
        assert Creates(states, labels, n - 1, s'.d.leases[s.calls[l.call].Origin().id]);
      } else {
        LeasesChange(cfg, s, l, s');
      }
      forall lease | Created(states, labels, n - 1, lease)
        ensures Created(states, labels, n, lease)
      {
        CreatedLater(states, labels, n - 1, lease);
      }
    }
  }

  lemma CreatedLater(states: seq<Sys>, labels: seq<Label>, n: int, lease: Lease)
    requires Created(states, labels, n, lease)
    ensures Created(states, labels, n + 1, lease)
  {
    var i :| 0 <= i < n && Creates(states, labels, i, lease);
    assert Creates(states, labels, i, lease) && i < n + 1;
  }
}
