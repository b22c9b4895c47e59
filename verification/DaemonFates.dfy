/**
 What becomes of every DELEGATE and of every decision on an approval: over any run
 each is still in somebody's hands, or has been carried out once, or belongs to the
 two kinds that the daemon lets vanish.
 */
module DaemonFates {
  import opened DaemonAuthority
  import opened DaemonKeeps
  import opened DaemonModel
  import opened DaemonProtocol
  import opened DaemonReports
  import opened Wrappers

  // ---- what the endings leave behind ---------------------------------------

  /** The client the message names hears of the failure and, if that is somebody else, so does the sender. */
  function FailuresFor(msg: Delegate): seq<Envelope> {
    var told := NotifyFor(Named(msg), SaysFailed, msg.id, ORCHESTRATOR);
    if Named(msg) == msg.from then [told] else [told, NotifyFor(msg.from, SaysFailed, msg.id, ORCHESTRATOR)]
  }

  ghost predicate SameOtherwise(d: DState, d': DState) {
    d'.clients == d.clients && d'.expired == d.expired && d'.got == d.got
  }

  /** One policy line, the failure messages, and a failed record within the limit of the completed store. */
  ghost predicate FailureLeft(d: DState, journalId: Id, author: Id, msg: Delegate, clock: Clock, d': DState) {
    && d'.journal == d.journal + [JournalLine(PolicyEvent, journalId, author, ORCHESTRATOR)]
    && d'.sent == d.sent + FailuresFor(msg)
    && Pruned(d.completed[msg.id := Task(msg.id, msg.to, clock.utc, Failed, clock.utc, [Notice(clock.utc, SaysFailed)])],
              d'.completed)
    && d'.active == d.active && d'.leases == d.leases && d'.approvals == d.approvals && SameOtherwise(d, d')
  }

  /** A lease for the message, a record for its worker, one line, and a message to a worker that polls. */
  ghost predicate LeaseLeft(d: DState, msg: Delegate, polls: bool, clock: Clock, d': DState) {
    && msg.id in d'.leases && IsFor(d'.leases[msg.id], msg, clock)
    && d'.leases == d.leases[msg.id := d'.leases[msg.id]]
    && d'.active == d.active[msg.id := Task(msg.id, msg.to, clock.utc, if polls then Pending else InProgress,
                                            clock.utc, [])]
    && d'.journal == d.journal + [JournalLine(DelegateEvent, msg.id, msg.from, msg.to)]
    && d'.sent == d.sent + (if polls then [Envelope(msg.to, Msg(TaskMsg, msg.id, ORCHESTRATOR, msg.to))] else [])
    && d'.completed == d.completed && d'.approvals == d.approvals && SameOtherwise(d, d')
  }

  /** The message on file under the approval id, the approver told, one policy line. */
  ghost predicate ApprovalLeft(cfg: Config, d: DState, msg: Delegate, a: Id, clock: Clock, d': DState) {
    && d'.approvals == d.approvals[a := PendingApproval(msg.id, msg, msg.tool, clock.instant)]
    && d'.sent == d.sent + [Envelope(cfg.approver, Msg(ApprovalMsg, a, ORCHESTRATOR, cfg.approver))]
    && d'.journal == d.journal + [JournalLine(PolicyEvent, a, ORCHESTRATOR, cfg.approver)]
    && d'.active == d.active && d'.completed == d.completed && d'.leases == d.leases && SameOtherwise(d, d')
  }

  /** Somebody is there to do the work: a configured worker, or a client heard of in the last thirty seconds. */
  predicate Present(cfg: Config, d: DState, worker: Id, clock: Clock) {
    worker in cfg.workers || (worker in d.clients && clock.instant - d.clients[worker] < 30_000_000_000)
  }

  lemma FailureLeaves(d: DState, journalId: Id, author: Id, msg: Delegate, clock: Clock, d': DState)
    requires FailureRecorded(d, journalId, author, msg, clock, d')
    ensures FailureLeft(d, journalId, author, msg, clock, d')
  {
    assert FailureMail(msg) == FailuresFor(msg);
    assert Recorded(None, msg.id, msg.to, SaysFailed, clock.utc)
           == Task(msg.id, msg.to, clock.utc, Failed, clock.utc, [Notice(clock.utc, SaysFailed)]);
  }

  lemma LeaseLeaves(d: DState, msg: Delegate, polls: bool, clock: Clock, d': DState)
    requires LeaseCreated(d, msg, polls, clock, d')
    ensures LeaseLeft(d, msg, polls, clock, d')
  {
  }

  // ---- what the first sections lead to -------------------------------------

  /** What a DELEGATE does at once, and which handler it leaves at work. */
  ghost predicate Dispatched(cfg: Config, s: Sys, msg: Delegate, a: Id, clock: Clock, s': Sys) {
    match cfg.policy(msg)
    case Deny => FailureLeft(s.d, msg.id, msg.from, msg, clock, s'.d) && s'.calls == s.calls
    case NeedApproval => ApprovalLeft(cfg, s.d, msg, a, clock, s'.d) && s'.calls == s.calls
    case Allow =>
      && s'.d == s.d
      && s'.calls == if Present(cfg, s.d, msg.to, clock) then s.calls[s.nextCall := Delegation(msg, msg.to !in cfg.workers)]
                     else s.calls
  }

  lemma DelegatesAreDispatched(cfg: Config, s: Sys, l: Label, s': Sys)
    requires l.DelegateIn? && Step(cfg, s, l, s')
    ensures Dispatched(cfg, s, l.msg, l.approvalId, l.clock, s')
  {
    if cfg.policy(l.msg) == Deny {
      FailureLeaves(s.d, l.msg.id, l.msg.from, l.msg, l.clock, s'.d);
    }
  }

  /** The approval is consumed whatever the verdict, and a clear verdict on a pending one leaves a handler at work. */
  ghost predicate Decided(s: Sys, a: Id, who: Id, verdict: Verdict, s': Sys) {
    && s'.d.approvals == s.d.approvals - {a}
    && s'.d.journal == s.d.journal && s'.d.sent == s.d.sent && s'.d.leases == s.d.leases
    && s'.d.active == s.d.active && s'.d.completed == s.d.completed && SameOtherwise(s.d, s'.d)
    && (a !in s.d.approvals || verdict.Unclear? ==> s'.calls == s.calls)
    && (a in s.d.approvals && verdict.Granted? ==>
          s'.calls == s.calls[s.nextCall := GrantTaken(a, s.d.approvals[a], who)])
    && (a in s.d.approvals && verdict.Refused? ==>
          s'.calls == s.calls[s.nextCall := RefusalTaken(a, s.d.approvals[a], who)])
  }

  lemma DecisionsAreTaken(cfg: Config, s: Sys, l: Label, s': Sys)
    requires l.Decide? && Step(cfg, s, l, s')
    ensures Decided(s, l.approvalId, l.approver, l.verdict, s')
  {
  }

  // ---- handlers at work ----------------------------------------------------

  /** The same work, perhaps with the grant journaled in between. */
  ghost predicate Pursues(call: Call, call': Call) {
    call' == call || (call.GrantTaken? && call' == Approved(call.approvalId, call.pending))
  }

  /** Section `j` is the last one of handler `id`. */
  ghost predicate Ends(states: seq<Sys>, labels: seq<Label>, j: nat, id: nat) {
    && j < |labels| < |states|
    && id in states[j].calls && id !in states[j + 1].calls
  }

  lemma HandlerStep(cfg: Config, s: Sys, l: Label, s': Sys, id: nat)
    requires Step(cfg, s, l, s') && id in s.calls && id < s.nextCall
    ensures id in s'.calls ==> s'.calls[id] == s.calls[id]
                               || (l == RecordGrant(id) && s.calls[id].GrantTaken?
                                   && s'.calls[id] == Approved(s.calls[id].approvalId, s.calls[id].pending))
    ensures id !in s'.calls ==> (l.CreateLease? && l.call == id && (s.calls[id].Delegation? || s.calls[id].Approved?))
                                || (l.RecordRefusal? && l.call == id && s.calls[id].RefusalTaken?)
  {
  }

  /** Handlers end once and do not come back. */
  lemma GoneForever(cfg: Config, states: seq<Sys>, labels: seq<Label>, j: nat, n: nat, id: nat)
    requires Run(cfg, states, labels) && j < n < |states| && Ends(states, labels, j, id)
    ensures id !in states[n].calls
  {
    AlwaysAccounted(cfg, states, labels, j);
    CallsChange(cfg, states[j], labels[j], states[j + 1]);
    CallIdsGrow(cfg, states, labels, j + 1, n);
  }

  lemma HandlerSection(cfg: Config, states: seq<Sys>, labels: seq<Label>, m: nat, id: nat)
    requires Run(cfg, states, labels) && m < |labels| && id in states[m].calls
    ensures id in states[m + 1].calls ==> Pursues(states[m].calls[id], states[m + 1].calls[id])
  {
    AlwaysAccounted(cfg, states, labels, m);
    HandlerStep(cfg, states[m], labels[m], states[m + 1], id);
  }

  /** Between the two states some section has ended the handler, which was at the work in question. */
  ghost predicate EndedBetween(states: seq<Sys>, labels: seq<Label>, i: nat, n: nat, id: nat, work: Call) {
    exists j :: i <= j < n && Ends(states, labels, j, id) && Pursues(work, states[j].calls[id])
  }

  lemma EndedLater(states: seq<Sys>, labels: seq<Label>, i: nat, m: nat, n: nat, id: nat, work: Call)
    requires EndedBetween(states, labels, i, m, id, work) && m <= n
    ensures EndedBetween(states, labels, i, n, id, work)
  {
    var j :| i <= j < m && Ends(states, labels, j, id) && Pursues(work, states[j].calls[id]);
    assert Ends(states, labels, j, id);
  }

  lemma EndedIsGone(cfg: Config, states: seq<Sys>, labels: seq<Label>, i: nat, n: nat, id: nat, work: Call)
    requires Run(cfg, states, labels) && n < |states| && EndedBetween(states, labels, i, n, id, work)
    ensures id !in states[n].calls
  {
    var j :| i <= j < n && Ends(states, labels, j, id) && Pursues(work, states[j].calls[id]);
    GoneForever(cfg, states, labels, j, n, id);
  }

  /** A handler stays at its work until the section that ends it. */
  lemma {:induction false} HandlerGoesOn(cfg: Config, states: seq<Sys>, labels: seq<Label>, i: nat, n: nat, id: nat,
                                         work: Call)
    requires Run(cfg, states, labels) && i <= n < |states| && id in states[i].calls && states[i].calls[id] == work
    ensures id in states[n].calls ==> Pursues(work, states[n].calls[id])
    ensures id !in states[n].calls <==> EndedBetween(states, labels, i, n, id, work)
  {
    if i < n {
      HandlerGoesOn(cfg, states, labels, i, n - 1, id, work);
      if id in states[n - 1].calls {
        HandlerSection(cfg, states, labels, n - 1, id);
        assert id !in states[n].calls ==> Ends(states, labels, n - 1, id);
      } else {
        EndedLater(states, labels, i, n - 1, n, id, work);
      }
      if EndedBetween(states, labels, i, n, id, work) {
        EndedIsGone(cfg, states, labels, i, n, id, work);
      }
    }
  }

  // ---- decisions are carried out -------------------------------------------

  /** Section `j` records the refusal that handler `id` has in hand. */
  ghost predicate RecordsRefusal(states: seq<Sys>, labels: seq<Label>, j: nat, id: nat, a: Id, who: Id, msg: Delegate) {
    && j < |labels| < |states|
    && labels[j].RecordRefusal? && labels[j].call == id
    && FailureLeft(states[j].d, a, who, msg, labels[j].clock, states[j + 1].d)
  }

  ghost predicate RefusalRecorded(states: seq<Sys>, labels: seq<Label>, i: nat, n: nat, id: nat, a: Id, who: Id,
                                  msg: Delegate)
  {
    exists j :: i < j < n && RecordsRefusal(states, labels, j, id, a, who, msg)
  }

  /** Section `j` creates the lease that handler `id` is to create. */
  ghost predicate MakesLease(states: seq<Sys>, labels: seq<Label>, j: nat, id: nat, msg: Delegate, polls: bool) {
    && j < |labels| < |states|
    && labels[j].CreateLease? && labels[j].call == id
    && LeaseLeft(states[j].d, msg, polls, labels[j].clock, states[j + 1].d)
  }

  ghost predicate LeaseMade(states: seq<Sys>, labels: seq<Label>, i: nat, n: nat, id: nat, msg: Delegate, polls: bool) {
    exists j :: i < j < n && MakesLease(states, labels, j, id, msg, polls)
  }

  /** Section `k` journals the grant that handler `id` has in hand. */
  ghost predicate JournalsGrant(states: seq<Sys>, labels: seq<Label>, k: nat, id: nat, a: Id, who: Id) {
    && k < |labels| < |states|
    && labels[k] == RecordGrant(id)
    && states[k + 1].d.journal == states[k].d.journal + [JournalLine(PolicyEvent, a, who, ORCHESTRATOR)]
  }

  lemma EndsByRefusal(cfg: Config, states: seq<Sys>, labels: seq<Label>, j: nat, id: nat)
    requires Run(cfg, states, labels) && Ends(states, labels, j, id) && states[j].calls[id].RefusalTaken?
    ensures var refusal := states[j].calls[id];
            RecordsRefusal(states, labels, j, id, refusal.approvalId, refusal.approver, refusal.pending.original)
  {
    AlwaysAccounted(cfg, states, labels, j);
    HandlerStep(cfg, states[j], labels[j], states[j + 1], id);
    var refusal := states[j].calls[id];
    FailureLeaves(states[j].d, refusal.approvalId, refusal.approver, refusal.pending.original, labels[j].clock,
                  states[j + 1].d);
  }

  lemma EndsByLease(cfg: Config, states: seq<Sys>, labels: seq<Label>, j: nat, id: nat, msg: Delegate, polls: bool)
    requires Run(cfg, states, labels) && Ends(states, labels, j, id)
    requires states[j].calls[id] == Delegation(msg, polls)
             || (states[j].calls[id].Approved? && states[j].calls[id].pending.original == msg && polls)
    ensures MakesLease(states, labels, j, id, msg, polls)
  {
    AlwaysAccounted(cfg, states, labels, j);
    HandlerStep(cfg, states[j], labels[j], states[j + 1], id);
    LeaseLeaves(states[j].d, msg, polls, labels[j].clock, states[j + 1].d);
  }

  lemma NotEndedByGrant(cfg: Config, states: seq<Sys>, labels: seq<Label>, j: nat, id: nat)
    requires Run(cfg, states, labels) && Ends(states, labels, j, id)
    ensures !states[j].calls[id].GrantTaken?
  {
    AlwaysAccounted(cfg, states, labels, j);
    HandlerStep(cfg, states[j], labels[j], states[j + 1], id);
  }

  /** A section of either kind ends its handler. */
  lemma EndingSection(cfg: Config, states: seq<Sys>, labels: seq<Label>, j: nat, n: nat, id: nat)
    requires Run(cfg, states, labels) && j < n < |states|
    requires (labels[j].RecordRefusal? || labels[j].CreateLease?) && labels[j].call == id
    ensures id !in states[n].calls
  {
    assert Step(cfg, states[j], labels[j], states[j + 1]);
    assert Ends(states, labels, j, id);
    GoneForever(cfg, states, labels, j, n, id);
  }

  /**
   A refused approval is never lost: the refusal is still in hand, or a later section
   has recorded it, and not both.
   */
  lemma RefusalsAreCarriedOut(cfg: Config, states: seq<Sys>, labels: seq<Label>, i: nat, n: nat)
    requires Run(cfg, states, labels) && i < n < |states|
    requires labels[i].Decide? && labels[i].verdict == Refused && labels[i].approvalId in states[i].d.approvals
    ensures var id, a, who := states[i].nextCall, labels[i].approvalId, labels[i].approver;
            var pending := states[i].d.approvals[a];
            id in states[n].calls && states[n].calls[id] == RefusalTaken(a, pending, who)
            <==> !RefusalRecorded(states, labels, i, n, id, a, who, pending.original)
  {
    var id, a, who := states[i].nextCall, labels[i].approvalId, labels[i].approver;
    var pending := states[i].d.approvals[a];
    var refusal := RefusalTaken(a, pending, who);
    DecisionsAreTaken(cfg, states[i], labels[i], states[i + 1]);
    HandlerGoesOn(cfg, states, labels, i + 1, n, id, refusal);
    if id !in states[n].calls {
      var j :| i < j < n && Ends(states, labels, j, id) && Pursues(refusal, states[j].calls[id]);
      EndsByRefusal(cfg, states, labels, j, id);
    }
    if RefusalRecorded(states, labels, i, n, id, a, who, pending.original) {
      var j :| i < j < n && RecordsRefusal(states, labels, j, id, a, who, pending.original);
      EndingSection(cfg, states, labels, j, n, id);
    }
  }

  /** No handler ends in two sections, so nothing is recorded or leased twice. */
  lemma HandlersEndOnce(cfg: Config, states: seq<Sys>, labels: seq<Label>, j: nat, k: nat)
    requires Run(cfg, states, labels) && j < k < |labels|
    requires (labels[j].RecordRefusal? || labels[j].CreateLease?) && (labels[k].RecordRefusal? || labels[k].CreateLease?)
    ensures labels[j].call != labels[k].call
  {
    EndingSection(cfg, states, labels, j, k, labels[j].call);
    assert Step(cfg, states[k], labels[k], states[k + 1]);
  }

  /** A handler that has a grant in hand comes to the lease only by journaling the grant. */
  lemma {:induction false} GrantIsJournaled(cfg: Config, states: seq<Sys>, labels: seq<Label>, i: nat, n: nat, id: nat)
      returns (k: nat)
    requires Run(cfg, states, labels) && i <= n < |states| && id in states[i].calls && id in states[n].calls
    requires states[i].calls[id].GrantTaken? && states[n].calls[id].Approved?
    ensures i <= k < n && JournalsGrant(states, labels, k, id, states[i].calls[id].approvalId, states[i].calls[id].approver)
  {
    var work := states[i].calls[id];
    assert i < n;
    HandlerGoesOn(cfg, states, labels, i, n - 1, id, work);
    if id !in states[n - 1].calls {
      EndedLater(states, labels, i, n - 1, n, id, work);
      EndedIsGone(cfg, states, labels, i, n, id, work);
      assert false;
    } else if states[n - 1].calls[id].Approved? {
      k := GrantIsJournaled(cfg, states, labels, i, n - 1, id);
    } else {
      k := n - 1;
      GrantSection(cfg, states, labels, k, id);
    }
  }

  lemma GrantSection(cfg: Config, states: seq<Sys>, labels: seq<Label>, k: nat, id: nat)
    requires Run(cfg, states, labels) && k < |labels| && id in states[k].calls && id in states[k + 1].calls
    requires states[k].calls[id].GrantTaken? && states[k + 1].calls[id].Approved?
    ensures JournalsGrant(states, labels, k, id, states[k].calls[id].approvalId, states[k].calls[id].approver)
  {
    AlwaysAccounted(cfg, states, labels, k);
    HandlerStep(cfg, states[k], labels[k], states[k + 1], id);
  }

  /**
   A granted approval is never lost either: the grant is still in hand, or a later
   section has created the lease and told the worker, after yet another has journaled
   the grant.
   */
  lemma GrantsAreCarriedOut(cfg: Config, states: seq<Sys>, labels: seq<Label>, i: nat, n: nat)
    requires Run(cfg, states, labels) && i < n < |states|
    requires labels[i].Decide? && labels[i].verdict == Granted && labels[i].approvalId in states[i].d.approvals
    ensures var id, a, who := states[i].nextCall, labels[i].approvalId, labels[i].approver;
            var pending := states[i].d.approvals[a];
            && (id in states[n].calls && Pursues(GrantTaken(a, pending, who), states[n].calls[id])
                <==> !LeaseMade(states, labels, i, n, id, pending.original, true))
            && forall j :: i < j < n && MakesLease(states, labels, j, id, pending.original, true) ==>
                 exists k :: i < k < j && JournalsGrant(states, labels, k, id, a, who)
  {
    var id, a, who := states[i].nextCall, labels[i].approvalId, labels[i].approver;
    var pending := states[i].d.approvals[a];
    var grant := GrantTaken(a, pending, who);
    DecisionsAreTaken(cfg, states[i], labels[i], states[i + 1]);
    HandlerGoesOn(cfg, states, labels, i + 1, n, id, grant);
    if id !in states[n].calls {
      var j :| i < j < n && Ends(states, labels, j, id) && Pursues(grant, states[j].calls[id]);
      NotEndedByGrant(cfg, states, labels, j, id);
      EndsByLease(cfg, states, labels, j, id, pending.original, true);
    }
    forall j | i < j < n && MakesLease(states, labels, j, id, pending.original, true)
      ensures id !in states[n].calls
      ensures exists k :: i < k < j && JournalsGrant(states, labels, k, id, a, who)
    {
      EndingSection(cfg, states, labels, j, n, id);
      GrantBeforeLease(cfg, states, labels, i, j, id, grant);
    }
  }

  lemma GrantBeforeLease(cfg: Config, states: seq<Sys>, labels: seq<Label>, i: nat, j: nat, id: nat, grant: Call)
    requires Run(cfg, states, labels) && i < j < |labels| && labels[j].CreateLease? && labels[j].call == id
    requires id in states[i + 1].calls && states[i + 1].calls[id] == grant && grant.GrantTaken?
    ensures exists k :: i < k < j && JournalsGrant(states, labels, k, id, grant.approvalId, grant.approver)
  {
    assert Step(cfg, states[j], labels[j], states[j + 1]);
    HandlerGoesOn(cfg, states, labels, i + 1, j, id, grant);
    var k := GrantIsJournaled(cfg, states, labels, i + 1, j, id);
  }

  /** Nor is an allowed message whose worker is there: its lease is still to come, or a later section has created it. */
  lemma AllowedAreCarriedOut(cfg: Config, states: seq<Sys>, labels: seq<Label>, i: nat, n: nat)
    requires Run(cfg, states, labels) && i < n < |states|
    requires labels[i].DelegateIn? && cfg.policy(labels[i].msg) == Allow
    requires Present(cfg, states[i].d, labels[i].msg.to, labels[i].clock)
    ensures var id, msg := states[i].nextCall, labels[i].msg;
            var polls := msg.to !in cfg.workers;
            id in states[n].calls && states[n].calls[id] == Delegation(msg, polls)
            <==> !LeaseMade(states, labels, i, n, id, msg, polls)
  {
    var id, msg := states[i].nextCall, labels[i].msg;
    var polls := msg.to !in cfg.workers;
    var work := Delegation(msg, polls);
    DelegatesAreDispatched(cfg, states[i], labels[i], states[i + 1]);
    HandlerGoesOn(cfg, states, labels, i + 1, n, id, work);
    if id !in states[n].calls {
      var j :| i < j < n && Ends(states, labels, j, id) && Pursues(work, states[j].calls[id]);
      EndsByLease(cfg, states, labels, j, id, msg, polls);
    }
    if LeaseMade(states, labels, i, n, id, msg, polls) {
      var j :| i < j < n && MakesLease(states, labels, j, id, msg, polls);
      EndingSection(cfg, states, labels, j, n, id);
    }
  }

  // ---- messages held for approval ------------------------------------------

  ghost predicate DecidedBetween(labels: seq<Label>, i: nat, n: nat, a: Id)
    requires n <= |labels|
  {
    exists k :: i < k < n && labels[k].Decide? && labels[k].approvalId == a
  }

  lemma ApprovalStep(cfg: Config, s: Sys, l: Label, s': Sys, a: Id)
    requires Step(cfg, s, l, s') && a in s.d.approvals && s.d.approvals.Keys <= s.past.approvalIds
    ensures if l.Decide? && l.approvalId == a then a !in s'.d.approvals
            else a in s'.d.approvals && s'.d.approvals[a] == s.d.approvals[a]
  {
    match l
    case Sweep(clock, order) =>
      var mid := SweptInTwo(s.d, order, clock, s'.d);
      SweepLeavesApprovals(s.d, order, clock, mid);
    case _ =>
  }

  /** A message held for approval is held, as it is, until somebody decides. */
  lemma {:induction false} HeldUntilDecided(cfg: Config, states: seq<Sys>, labels: seq<Label>, i: nat, n: nat)
    requires Run(cfg, states, labels) && i < n < |states|
    requires labels[i].DelegateIn? && cfg.policy(labels[i].msg) == NeedApproval
    ensures var a, msg := labels[i].approvalId, labels[i].msg;
            && (a in states[n].d.approvals <==> !DecidedBetween(labels, i, n, a))
            && (a in states[n].d.approvals ==> states[n].d.approvals[a].original == msg)
  {
    var a := labels[i].approvalId;
    if n == i + 1 {
      DelegatesAreDispatched(cfg, states[i], labels[i], states[n]);
    } else {
      HeldUntilDecided(cfg, states, labels, i, n - 1);
      AlwaysAccounted(cfg, states, labels, n - 1);
      if a in states[n - 1].d.approvals {
        ApprovalStep(cfg, states[n - 1], labels[n - 1], states[n], a);
        assert DecidedBetween(labels, i, n, a) ==> labels[n - 1].Decide? && labels[n - 1].approvalId == a;
      } else {
        DecidedStays(cfg, states, labels, i, n, a);
      }
    }
  }

  lemma DecidedStays(cfg: Config, states: seq<Sys>, labels: seq<Label>, i: nat, n: nat, a: Id)
    requires Run(cfg, states, labels) && i < n - 1 && n < |states| && DecidedBetween(labels, i, n - 1, a)
    requires labels[i].DelegateIn? && cfg.policy(labels[i].msg) == NeedApproval && labels[i].approvalId == a
    requires a !in states[n - 1].d.approvals
    ensures DecidedBetween(labels, i, n, a) && a !in states[n].d.approvals
  {
    ApprovalsChange(cfg, states[i], labels[i], states[i + 1]);
    ApprovalIdsGrow(cfg, states, labels, i + 1, n - 1);
    GoneForGood(cfg, states, labels, n - 1, n, a);
    DecidedLater(labels, i, n, a);
  }

  lemma DecidedLater(labels: seq<Label>, i: nat, n: nat, a: Id)
    requires 0 < n <= |labels| && DecidedBetween(labels, i, n - 1, a)
    ensures DecidedBetween(labels, i, n, a)
  {
    var k :| i < k < n - 1 && labels[k].Decide? && labels[k].approvalId == a;
  }

  lemma {:induction false} ApprovalIdsGrow(cfg: Config, states: seq<Sys>, labels: seq<Label>, i: nat, n: nat)
    requires Run(cfg, states, labels) && i <= n < |states|
    ensures states[i].past.approvalIds <= states[n].past.approvalIds
  {
    if i < n {
      ApprovalIdsGrow(cfg, states, labels, i, n - 1);
      ApprovalsChange(cfg, states[n - 1], labels[n - 1], states[n]);
    }
  }

  lemma StillHeld(cfg: Config, states: seq<Sys>, labels: seq<Label>, i: nat, n: nat)
    requires Run(cfg, states, labels) && i <= n < |states| && i < |labels|
    requires labels[i].DelegateIn? && cfg.policy(labels[i].msg) == NeedApproval
    ensures n == i + 1 ==> labels[i].approvalId in states[n].d.approvals
    ensures n > i && labels[i].approvalId in states[n].d.approvals ==>
              states[n].d.approvals[labels[i].approvalId].original == labels[i].msg
  {
    if n > i {
      HeldUntilDecided(cfg, states, labels, i, n);
    }
  }

  lemma {:induction false} FirstDecision(cfg: Config, states: seq<Sys>, labels: seq<Label>, i: nat, n: nat)
      returns (k: nat)
    requires Run(cfg, states, labels) && i < n < |states|
    requires labels[i].DelegateIn? && cfg.policy(labels[i].msg) == NeedApproval
    requires labels[i].approvalId !in states[n].d.approvals
    ensures i < k < n && labels[k].Decide? && labels[k].approvalId == labels[i].approvalId
    ensures labels[i].approvalId in states[k].d.approvals && states[k].d.approvals[labels[i].approvalId].original == labels[i].msg
  {
    var a := labels[i].approvalId;
    StillHeld(cfg, states, labels, i, n);
    StillHeld(cfg, states, labels, i, n - 1);
    if a !in states[n - 1].d.approvals {
      k := FirstDecision(cfg, states, labels, i, n - 1);
    } else {
      k := n - 1;
      assert i < k;
      DecidingSection(cfg, states, labels, k, a);
    }
  }

  lemma DecidingSection(cfg: Config, states: seq<Sys>, labels: seq<Label>, k: nat, a: Id)
    requires Run(cfg, states, labels) && k < |labels| && a in states[k].d.approvals && a !in states[k + 1].d.approvals
    ensures labels[k].Decide? && labels[k].approvalId == a
  {
    AlwaysAccounted(cfg, states, labels, k);
    ApprovalStep(cfg, states[k], labels[k], states[k + 1], a);
  }

  // ---- the fate of every DELEGATE ------------------------------------------

  ghost predicate InHand(s: Sys, id: nat, work: Call) {
    id in s.calls && Pursues(work, s.calls[id])
  }

  /** Section `k` decides on the pending message; what has become of that by state `n`. */
  ghost predicate FateOfDecision(states: seq<Sys>, labels: seq<Label>, k: nat, n: nat, a: Id, msg: Delegate) {
    && k < n < |states| == |labels| + 1
    && labels[k].Decide? && labels[k].approvalId == a
    && a in states[k].d.approvals && states[k].d.approvals[a].original == msg
    && var id, who, pending := states[k].nextCall, labels[k].approver, states[k].d.approvals[a];
    match labels[k].verdict
    case Granted => InHand(states[n], id, GrantTaken(a, pending, who)) || LeaseMade(states, labels, k, n, id, msg, true)
    case Refused => InHand(states[n], id, RefusalTaken(a, pending, who))
                    || RefusalRecorded(states, labels, k, n, id, a, who, msg)
    case Unclear => states[k + 1].calls == states[k].calls
  }

  /** What has become of the DELEGATE of section `i` by state `n`. */
  ghost predicate Fate(cfg: Config, states: seq<Sys>, labels: seq<Label>, i: nat, n: nat) {
    && i < n < |states| == |labels| + 1
    && labels[i].DelegateIn?
    && var msg, a, clock := labels[i].msg, labels[i].approvalId, labels[i].clock;
    var d, d' := states[i].d, states[i + 1].d;
    match cfg.policy(msg)
    case Deny => FailureLeft(d, msg.id, msg.from, msg, clock, d')
    case NeedApproval =>
      && ApprovalLeft(cfg, d, msg, a, clock, d')
      && (|| (a in states[n].d.approvals && states[n].d.approvals[a].original == msg)
          || exists k :: i < k && FateOfDecision(states, labels, k, n, a, msg))
    case Allow =>
      if Present(cfg, d, msg.to, clock) then
        var id, polls := states[i].nextCall, msg.to !in cfg.workers;
        InHand(states[n], id, Delegation(msg, polls)) || LeaseMade(states, labels, i, n, id, msg, polls)
      else d' == d && states[i + 1].calls == states[i].calls
  }

  lemma DecisionsHaveTheirFate(cfg: Config, states: seq<Sys>, labels: seq<Label>, k: nat, n: nat)
    requires Run(cfg, states, labels) && k < n < |states|
    requires labels[k].Decide? && labels[k].approvalId in states[k].d.approvals
    ensures FateOfDecision(states, labels, k, n, labels[k].approvalId,
                           states[k].d.approvals[labels[k].approvalId].original)
  {
    match labels[k].verdict
    case Granted => GrantsAreCarriedOut(cfg, states, labels, k, n);
    case Refused => RefusalsAreCarriedOut(cfg, states, labels, k, n);
    case Unclear => DecisionsAreTaken(cfg, states[k], labels[k], states[k + 1]);
  }

  /**
   In every state of every run, every DELEGATE so far is denied on record, held for
   approval, decided on, in the hands of a handler, leased, or was allowed for a
   worker who was not there.
   */
  lemma EveryDelegateHasItsFate(cfg: Config, states: seq<Sys>, labels: seq<Label>, i: nat, n: nat)
    requires Run(cfg, states, labels) && i < n < |states| && labels[i].DelegateIn?
    ensures Fate(cfg, states, labels, i, n)
  {
    var msg, a := labels[i].msg, labels[i].approvalId;
    DelegatesAreDispatched(cfg, states[i], labels[i], states[i + 1]);
    match cfg.policy(msg)
    case Deny =>
    case NeedApproval =>
      HeldUntilDecided(cfg, states, labels, i, n);
      if a !in states[n].d.approvals {
        var k := FirstDecision(cfg, states, labels, i, n);
        DecisionsHaveTheirFate(cfg, states, labels, k, n);
        assert FateOfDecision(states, labels, k, n, a, msg);
      }
    case Allow =>
      if Present(cfg, states[i].d, msg.to, labels[i].clock) {
        AllowedAreCarriedOut(cfg, states, labels, i, n);
      }
  }

  // ---- what vanishes -------------------------------------------------------

  /** A DELEGATE leaves no trace exactly if it is allowed and its worker is not there. */
  lemma DelegatesVanishExactly(cfg: Config, states: seq<Sys>, labels: seq<Label>, i: nat)
    requires Run(cfg, states, labels) && i < |labels| && labels[i].DelegateIn?
    ensures states[i + 1].d == states[i].d && states[i + 1].calls == states[i].calls <==>
            cfg.policy(labels[i].msg) == Allow && !Present(cfg, states[i].d, labels[i].msg.to, labels[i].clock)
  {
    AlwaysAccounted(cfg, states, labels, i);
    DelegatesAreDispatched(cfg, states[i], labels[i], states[i + 1]);
    var id := states[i].nextCall;
    assert id !in states[i].calls;
  }

  /** A decision on a pending approval leaves nothing but its absence exactly if the verdict is unclear. */
  lemma DecisionsVanishExactly(cfg: Config, states: seq<Sys>, labels: seq<Label>, i: nat)
    requires Run(cfg, states, labels) && i < |labels| && labels[i].Decide?
    requires labels[i].approvalId in states[i].d.approvals
    ensures labels[i].approvalId !in states[i + 1].d.approvals && states[i + 1].d.journal == states[i].d.journal
    ensures states[i + 1].calls == states[i].calls <==> labels[i].verdict == Unclear
  {
    AlwaysAccounted(cfg, states, labels, i);
    DecisionsAreTaken(cfg, states[i], labels[i], states[i + 1]);
    var id := states[i].nextCall;
    assert id !in states[i].calls;
  }

  // ---- a refusal in hand can be recorded -----------------------------------

  lemma {:induction false} LeastRecent(tasks: map<Id, Task>) returns (x: Id)
    requires tasks != map[]
    ensures x in tasks && forall t <- tasks :: tasks[x].lastActivity <= tasks[t].lastActivity
    decreases |tasks|
  {
    x :| x in tasks;
    var rest := Drop(tasks, x);
    if rest != map[] {
      RemovedOne(tasks, x);
      var y := LeastRecent(rest);
      if tasks[y].lastActivity < tasks[x].lastActivity {
        x := y;
      }
    }
  }

  /** The completed store can always be cut to its limit. */
  lemma {:induction false} PruningIsPossible(before: map<Id, Task>) returns (after: map<Id, Task>)
    ensures Pruned(before, after)
    decreases |before|
  {
    if |before| <= MAX_COMPLETED_TASKS {
      after := before;
    } else {
      var x := LeastRecent(before);
      RemovedOne(before, x);
      after := PruningIsPossible(Drop(before, x));
    }
  }

  /** Whatever else has happened meanwhile, a refusal in hand can be recorded next. */
  lemma RefusalCanBeRecorded(cfg: Config, s: Sys, id: nat, clock: Clock) returns (s': Sys)
    requires id in s.calls && s.calls[id].RefusalTaken?
    ensures Step(cfg, s, RecordRefusal(id, clock), s') && id !in s'.calls
    ensures FailureLeft(s.d, s.calls[id].approvalId, s.calls[id].approver, s.calls[id].pending.original, clock, s'.d)
  {
    var refusal, d := s.calls[id], s.d;
    var msg := refusal.Origin();
    var record := Recorded(None, msg.id, msg.to, SaysFailed, clock.utc);
    var completed' := PruningIsPossible(d.completed[record.id := record]);
    var line := JournalLine(PolicyEvent, refusal.approvalId, refusal.approver, ORCHESTRATOR);
    var d' := DState(d.clients, d.leases, d.expired, PutAll(d.queues, FailureMail(msg)), d.approvals, d.active,
                     completed', d.journal + [line], d.sent + FailureMail(msg), d.got);
    assert FailureRecorded(d, refusal.approvalId, refusal.approver, msg, clock, d');
    FailureLeaves(d, refusal.approvalId, refusal.approver, msg, clock, d');
    s' := Sys(d', Drop(s.calls, id), s.nextCall, s.past.(known := s.past.known + {msg.id}));
  }
}
