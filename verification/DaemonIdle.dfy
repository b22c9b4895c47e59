/** What an idle-looking daemon may still do: the idle check does not see handlers between two sections. */
module DaemonIdle {
  import opened DaemonKeeps
  import opened DaemonModel
  import opened DaemonProtocol

  predicate HasLiveClients(d: DState, clock: Clock) {
    exists c :: c in d.clients && clock.instant - d.clients[c] < HEARTBEAT_TIMEOUT
  }

  /** What keeps the daemon from shutting down for idleness. */
  predicate HasInflightWork(d: DState) {
    d.active != map[] || d.leases != map[] || d.approvals != map[]
  }

  /** Leases alone never do: they come with an active task. */
  lemma WorkIsTasksOrApprovals(d: DState)
    requires Consistent(d)
    ensures HasInflightWork(d) <==> d.active != map[] || d.approvals != map[]
  {
    if d.leases != map[] {
      var t :| t in d.leases;
      assert t in d.active;
    }
  }

  /** A handler that has a lease to create, now or after journaling the grant. */
  predicate Owing(call: Call) {
    call.MayLease() || call.GrantTaken?
  }

  predicate OwesALease(calls: map<nat, Call>) {
    exists i :: i in calls && Owing(calls[i])
  }

  // ---- going on without new work -------------------------------------------

  ghost predicate GoesOn(cfg: Config, states: seq<Sys>, labels: seq<Label>) {
    && |states| == |labels| + 1
    && forall i :: 0 <= i < |labels| ==> Step(cfg, states[i], labels[i], states[i + 1]) && !labels[i].DelegateIn?
  }

  /** Sections after `s`, none of them a new DELEGATE, that create a lease. */
  ghost predicate LeadsToALease(cfg: Config, s: Sys, states: seq<Sys>, labels: seq<Label>) {
    && GoesOn(cfg, states, labels) && states[0] == s
    && exists i :: 0 <= i < |labels| && labels[i].CreateLease?
  }

  ghost predicate CanStillLease(cfg: Config, s: Sys) {
    exists states, labels :: LeadsToALease(cfg, s, states, labels)
  }

  lemma OwesNothingStep(cfg: Config, s: Sys, l: Label, s': Sys)
    requires Step(cfg, s, l, s') && !l.DelegateIn?
    requires !OwesALease(s.calls) && s.d.approvals == map[]
    ensures !OwesALease(s'.calls) && s'.d.approvals == map[] && !l.CreateLease?
  {
    match l
    case Sweep(clock, order) =>
      var mid := SweptInTwo(s.d, order, clock, s'.d);
      SweepLeavesApprovals(s.d, order, clock, mid);
    case RecordRefusal(call, _) => assert forall i <- s'.calls :: i in s.calls && s'.calls[i] == s.calls[i];
    case _ =>
  }

  lemma {:induction false} OwesNothingEver(cfg: Config, states: seq<Sys>, labels: seq<Label>, n: nat)
    requires GoesOn(cfg, states, labels) && n < |states|
    requires !OwesALease(states[0].calls) && states[0].d.approvals == map[]
    ensures !OwesALease(states[n].calls) && states[n].d.approvals == map[]
    ensures forall i :: 0 <= i < n ==> !labels[i].CreateLease?
  {
    if n > 0 {
      OwesNothingEver(cfg, states, labels, n - 1);
      OwesNothingStep(cfg, states[n - 1], labels[n - 1], states[n]);
    }
  }

  /** The two sections that are always possible for a handler that owes a lease. */
  lemma LogIt(cfg: Config, s: Sys, i: nat) returns (s': Sys)
    requires i in s.calls && s.calls[i].GrantTaken?
    ensures Step(cfg, s, RecordGrant(i), s')
    ensures i in s'.calls && s'.calls[i].Approved? && s'.calls[i].Origin() == s.calls[i].Origin()
  {
    var grant, d := s.calls[i], s.d;
    var line := JournalLine(PolicyEvent, grant.approvalId, grant.approver, ORCHESTRATOR);
    var d' := DState(d.clients, d.leases, d.expired, d.queues, d.approvals, d.active, d.completed,
                     d.journal + [line], d.sent, d.got);
    s' := s.(d := d', calls := s.calls[i := Approved(grant.approvalId, grant.pending)]);
  }

  lemma LeaseIt(cfg: Config, s: Sys, i: nat, clock: Clock) returns (s': Sys)
    requires i in s.calls && s.calls[i].MayLease()
    ensures Step(cfg, s, CreateLease(i, clock), s')
    ensures s.calls[i].Origin().id in s'.d.leases
  {
    var msg, told, d := s.calls[i].Origin(), s.calls[i].NotifiesWorker(), s.d;
    var lease := Lease(msg.id, msg.to, msg.from, clock.instant + LEASE_TTL, msg.returnTo);
    var task := Task(msg.id, msg.to, clock.utc, if told then Pending else InProgress, clock.utc, []);
    var mail := if told then [Envelope(msg.to, Msg(TaskMsg, msg.id, ORCHESTRATOR, msg.to))] else [];
    var line := JournalLine(DelegateEvent, msg.id, msg.from, msg.to);
    var d' := DState(d.clients, d.leases[msg.id := lease], d.expired, PutAll(d.queues, mail), d.approvals,
                     d.active[msg.id := task], d.completed, d.journal + [line], d.sent + mail, d.got);
    assert LeaseCreated(d, msg, told, clock, d');
    s' := Sys(d', Drop(s.calls, i), s.nextCall,
              s.past.(known := s.past.known + {msg.id}, created := s.past.created + 1));
  }

  lemma OwedLeaseCanCome(cfg: Config, s: Sys, i: nat, clock: Clock) returns (states: seq<Sys>, labels: seq<Label>)
    requires i in s.calls && Owing(s.calls[i])
    ensures LeadsToALease(cfg, s, states, labels)
    ensures s.calls[i].Origin().id in states[|labels|].d.leases
  {
    if s.calls[i].GrantTaken? {
      var s1 := LogIt(cfg, s, i);
      var s2 := LeaseIt(cfg, s1, i, clock);
      states, labels := [s, s1, s2], [RecordGrant(i), CreateLease(i, clock)];
      assert labels[1].CreateLease?;
    } else {
      var s1 := LeaseIt(cfg, s, i, clock);
      states, labels := [s, s1], [CreateLease(i, clock)];
      assert labels[0].CreateLease?;
    }
  }

  /**
   A daemon that shows no work can still create a lease, without a new DELEGATE,
   exactly when a handler between its sections owes one.
   */
  lemma IdleButOwing(cfg: Config, s: Sys)
    requires !HasInflightWork(s.d)
    ensures CanStillLease(cfg, s) <==> OwesALease(s.calls)
  {
    if OwesALease(s.calls) {
      var i :| i in s.calls && Owing(s.calls[i]);
      var states, labels := OwedLeaseCanCome(cfg, s, i, Clock(0, 0));
    }
    if CanStillLease(cfg, s) {
      var states, labels :| LeadsToALease(cfg, s, states, labels);
      if !OwesALease(s.calls) {
        OwesNothingEver(cfg, states, labels, |labels|);
      }
    }
  }

  // ---- both ways to get there ----------------------------------------------

  /** Nothing on file, no client alive, and yet a lease for this message to come. */
  ghost predicate IdleAndOwing(s: Sys, clock: Clock, msg: Delegate) {
    && !HasLiveClients(s.d, clock) && !HasInflightWork(s.d)
    && exists i :: i in s.calls && Owing(s.calls[i]) && s.calls[i].Origin() == msg
  }

  lemma GrantTakenRun(cfg: Config, msg: Delegate, clock: Clock) returns (s1: Sys, s2: Sys)
    requires cfg.policy(msg) == NeedApproval
    ensures Step(cfg, START, DelegateIn(msg, 0, clock), s1)
    ensures Step(cfg, s1, Decide(0, cfg.approver, Granted), s2)
    ensures s2.d.clients == map[] && !HasInflightWork(s2.d)
    ensures 0 in s2.calls && s2.calls[0].GrantTaken? && s2.calls[0].Origin() == msg
  {
    var pending := PendingApproval(msg.id, msg, msg.tool, clock.instant);
    var held := HeldApproval(cfg, msg, pending);
    s1 := Sys(held, map[], 0, Past({0}, {msg.id}, {}, 0, 0));
    s2 := Sys(held.(approvals := map[]), map[0 := GrantTaken(0, pending, cfg.approver)], 1, s1.past);
    assert Drop(held.approvals, 0) == map[];
  }

  /** After a grant of an approval. */
  lemma IdleWithAGrantInFlight(cfg: Config, msg: Delegate, clock: Clock)
      returns (states: seq<Sys>, labels: seq<Label>)
    requires cfg.policy(msg) == NeedApproval
    ensures Run(cfg, states, labels) && |labels| == 4
    ensures IdleAndOwing(states[2], clock, msg) && msg.id in states[4].d.leases
  {
    var s1, s2 := GrantTakenRun(cfg, msg, clock);
    assert Owing(s2.calls[0]);
    var s3 := LogIt(cfg, s2, 0);
    var s4 := LeaseIt(cfg, s3, 0, clock);
    states := [START, s1, s2, s3, s4];
    labels := [DelegateIn(msg, 0, clock), Decide(0, cfg.approver, Granted), RecordGrant(0), CreateLease(0, clock)];
  }

  function HeldApproval(cfg: Config, msg: Delegate, pending: PendingApproval): DState {
    var ask := Envelope(cfg.approver, Msg(ApprovalMsg, 0, ORCHESTRATOR, cfg.approver));
    DState(map[], map[], map[], PutAll(map[], [ask]), map[0 := pending], map[], map[],
           [JournalLine(PolicyEvent, 0, ORCHESTRATOR, cfg.approver)], [ask], [])
  }

  /** And after an allowed DELEGATE to a configured worker. */
  lemma IdleWithADelegationInFlight(cfg: Config, msg: Delegate, clock: Clock)
      returns (states: seq<Sys>, labels: seq<Label>)
    requires cfg.policy(msg) == Allow && msg.to in cfg.workers
    ensures Run(cfg, states, labels) && |labels| == 2
    ensures IdleAndOwing(states[1], clock, msg) && msg.id in states[2].d.leases
  {
    var s1 := Sys(EMPTY, map[0 := Delegation(msg, false)], 1, Past({}, {msg.id}, {}, 0, 0));
    var ask := DelegateIn(msg, 0, clock);
    assert Step(cfg, START, ask, s1);
    assert 0 in s1.calls && Owing(s1.calls[0]);
    var s2 := LeaseIt(cfg, s1, 0, clock);
    states, labels := [START, s1, s2], [ask, CreateLease(0, clock)];
  }
}
