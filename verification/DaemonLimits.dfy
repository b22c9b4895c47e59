/** Where the daemon promises less than one might expect, and exactly when. */
module DaemonLimits {
  import opened DaemonConservation
  import opened DaemonKeeps
  import opened DaemonModel
  import opened DaemonProtocol
  import opened DaemonQueues
  import opened DaemonSweep
  import opened Wrappers

  // ---- messages that nobody gets -------------------------------------------

  /** How many messages queued for the client it neither got nor will get. */
  ghost function Lost(s: DState, client: Id): int {
    |To(s.sent, client)| - |To(s.got, client)| - |QueueOf(s.queues, client)|
  }

  lemma LostIsNeverNegative(s: DState, client: Id)
    requires ClientInOrder(s, client)
    ensures Lost(s, client) >= 0
  {
    var sent, got, waiting := To(s.sent, client), To(s.got, client), QueueOf(s.queues, client);
    var positions :| Picks(got, sent, positions, |sent| - |waiting|);
    IncreasingFits(positions, |sent| - |waiting|);
  }

  lemma {:induction false} IncreasingFits(positions: seq<int>, bound: int)
    requires forall i :: 0 <= i < |positions| ==> 0 <= positions[i] < bound
    requires forall i, j :: 0 <= i < j < |positions| ==> positions[i] < positions[j]
    requires bound >= 0
    ensures |positions| <= bound
  {
    if positions != [] {
      var n := |positions| - 1;
      IncreasingFits(positions[..n], positions[n]);
    }
  }

  /**
   What one section loses of a client's messages: a poll or heartbeat of that client
   all that wait but the first, a sweep that drops it as dead all that wait,
   including the timeouts the same sweep has just queued.
   */
  ghost function LossOf(s: DState, l: Label, client: Id): nat {
    var waiting := |QueueOf(s.queues, client)|;
    match l
    case PollQueue(c) => if c == client && waiting > 1 then waiting - 1 else 0
    case Heartbeat(c, _) => if c == client && waiting > 1 then waiting - 1 else 0
    case Sweep(clock, order) => SweepLoss(s, order, clock, client)
    case _ => 0
  }

  ghost function SweepLoss(s: DState, order: seq<Id>, clock: Clock, client: Id): nat {
    if client in DeadClients(s, clock) then |QueueOf(s.queues, client)| + |To(TimeoutMail(s.leases, order), client)|
    else 0
  }

  lemma PollLosesTheRest(s: DState, target: Id, s': DState, client: Id)
    requires HandedOver(s, target, s')
    ensures var waiting := |QueueOf(s.queues, client)|;
            Lost(s', client) == Lost(s, client) + if client == target && waiting > 1 then waiting - 1 else 0
  {
    HandedOverGot(s, target, s', client);
    HandedOverQueue(s, target, s', client);
  }

  lemma QueueingLosesNothing(s: DState, mail: seq<Envelope>, s': DState, client: Id)
    requires Mailed(s, mail, s') && s'.got == s.got
    ensures Lost(s', client) == Lost(s, client)
  {
    PutAllQueue(s.queues, mail, client);
    ToAppendAll(s.sent, mail, client);
  }

  lemma {:induction false} ExpiryHandsOverNothing(s: DState, order: seq<Id>, clock: Clock, s': DState)
    requires AllExpired(s, order, clock, s')
    ensures s'.got == s.got
    decreases |order|
  {
    if order != [] {
      var mid := LastExpiry(s, order, clock, s');
      ExpiryHandsOverNothing(s, order[..|order| - 1], clock, mid);
    }
  }

  lemma SweepLosesTheDead(s: DState, order: seq<Id>, clock: Clock, s': DState, client: Id)
    requires Swept(s, order, clock, s')
    ensures Lost(s', client) == Lost(s, client) + SweepLoss(s, order, clock, client)
  {
    SweepMovesExactlyTheOverdue(s, order, clock, s');
    SweepHandsOverNothing(s, order, clock, s');
    ToAppendAll(s.sent, TimeoutMail(s.leases, order), client);
    LossInParts(s, s', client, To(TimeoutMail(s.leases, order), client), client in DeadClients(s, clock));
  }

  lemma SweepHandsOverNothing(s: DState, order: seq<Id>, clock: Clock, s': DState)
    requires Swept(s, order, clock, s')
    ensures s'.got == s.got
  {
    var mid := SweptInTwo(s, order, clock, s');
    ExpiryHandsOverNothing(s, order, clock, mid);
  }

  lemma {:induction false} LossInParts(s: DState, s': DState, client: Id, more: seq<Msg>, dropped: bool)
    requires To(s'.sent, client) == To(s.sent, client) + more && s'.got == s.got
    requires QueueOf(s'.queues, client) == if dropped then [] else QueueOf(s.queues, client) + more
    ensures Lost(s', client) == Lost(s, client) + if dropped then |QueueOf(s.queues, client)| + |more| else 0
  {
  }

  lemma DelegateMail(cfg: Config, s: DState, msg: Delegate, approvalId: Id, clock: Clock, s': DState)
      returns (mail: seq<Envelope>)
    requires Delegated(cfg, s, msg, approvalId, clock, s')
    ensures Mailed(s, mail, s') && s'.got == s.got
  {
    match cfg.policy(msg)
    case Deny => mail := FailureMail(msg);
    case NeedApproval => mail := [Envelope(cfg.approver, Msg(ApprovalMsg, approvalId, ORCHESTRATOR, cfg.approver))];
    case Allow =>
      mail := [];
      assert s.sent + [] == s.sent;
  }

  /** No section loses anything else. */
  lemma StepLoses(cfg: Config, s: Sys, l: Label, s': Sys, client: Id)
    requires Step(cfg, s, l, s')
    ensures Lost(s'.d, client) == Lost(s.d, client) + LossOf(s.d, l, client)
  {
    match l
    case Heartbeat(c, _) => PollLosesTheRest(s.d, c, s'.d, client);
    case PollQueue(c) => PollLosesTheRest(s.d, c, s'.d, client);
    case DelegateIn(msg, approvalId, clock) =>
      var mail := DelegateMail(cfg, s.d, msg, approvalId, clock, s'.d);
      QueueingLosesNothing(s.d, mail, s'.d, client);
    case CreateLease(call, clock) =>
      var msg := s.calls[call].Origin();
      QueueingLosesNothing(s.d, if s.calls[call].NotifiesWorker()
                                then [Envelope(msg.to, Msg(TaskMsg, msg.id, ORCHESTRATOR, msg.to))] else [], s'.d, client);
    case RecordRefusal(call, clock) => QueueingLosesNothing(s.d, FailureMail(s.calls[call].Origin()), s'.d, client);
    case NotifyIn(m, clock) =>
      if !m.status.SaysAck? {
        QueueingLosesNothing(s.d, [ReportMsg(SettledLease(s.d, m.TaskId()), m)], s'.d, client);
      }
    case Sweep(clock, order) => SweepLosesTheDead(s.d, order, clock, s'.d, client);
    case _ =>
  }

  ghost function TotalLoss(states: seq<Sys>, labels: seq<Label>, n: nat, client: Id): nat
    requires n <= |labels| && |states| == |labels| + 1
  {
    if n == 0 then 0 else TotalLoss(states, labels, n - 1, client) + LossOf(states[n - 1].d, labels[n - 1], client)
  }

  /** Each section loses what `LossOf` says, from nothing lost at the start. */
  ghost predicate LossesAt(states: seq<Sys>, labels: seq<Label>, client: Id) {
    && |states| == |labels| + 1 && Lost(states[0].d, client) == 0
    && forall i :: 0 <= i < |labels| ==>
         Lost(states[i + 1].d, client) == Lost(states[i].d, client) + LossOf(states[i].d, labels[i], client)
  }

  lemma RunLoses(cfg: Config, states: seq<Sys>, labels: seq<Label>, client: Id)
    requires Run(cfg, states, labels)
    ensures LossesAt(states, labels, client)
  {
    forall i | 0 <= i < |labels|
      ensures Lost(states[i + 1].d, client) == Lost(states[i].d, client) + LossOf(states[i].d, labels[i], client)
    {
      StepLoses(cfg, states[i], labels[i], states[i + 1], client);
    }
  }

  lemma {:induction false} LossesAddUp(states: seq<Sys>, labels: seq<Label>, n: nat, client: Id)
    requires LossesAt(states, labels, client) && n < |states|
    ensures Lost(states[n].d, client) == TotalLoss(states, labels, n, client)
  {
    if n > 0 {
      LossesAddUp(states, labels, n - 1, client);
    }
  }

  lemma {:induction false} NoLossInTotal(states: seq<Sys>, labels: seq<Label>, n: nat, client: Id)
    requires n <= |labels| && |states| == |labels| + 1
    ensures TotalLoss(states, labels, n, client) == 0 <==>
            forall i :: 0 <= i < n ==> LossOf(states[i].d, labels[i], client) == 0
  {
    if n > 0 {
      NoLossInTotal(states, labels, n - 1, client);
    }
  }

  /** Over a run nothing of a client's mail is lost exactly when no section of it loses any. */
  lemma NothingLostExactly(cfg: Config, states: seq<Sys>, labels: seq<Label>, n: nat, client: Id)
    requires Run(cfg, states, labels) && n < |states|
    ensures Lost(states[n].d, client) == 0 <==> forall i :: 0 <= i < n ==> LossOf(states[i].d, labels[i], client) == 0
  {
    RunLoses(cfg, states, labels, client);
    LossesAddUp(states, labels, n, client);
    NoLossInTotal(states, labels, n, client);
  }

  // ---- a finished task may start again -------------------------------------

  predicate SaysFinal(word: StatusWord) {
    word.SaysCompleted? || word.SaysFailed? || word.SaysCancelled?
  }

  /** A report that does not end the task and is no mere acknowledgement. */
  predicate ReportsProgress(l: Label, t: Id) {
    l.NotifyIn? && l.m.TaskId() == t && !l.m.status.SaysAck? && !SaysFinal(l.m.status)
  }

  predicate LeasesAgain(s: Sys, l: Label, t: Id) {
    l.CreateLease? && l.call in s.calls && s.calls[l.call].Origin().id == t
  }

  lemma NotifyRestarts(s: DState, m: Notify, clock: Clock, s': DState, t: Id)
    requires Consistent(s) && Notified(s, m, clock, s') && t !in s.active
    ensures t in s'.active <==> m.TaskId() == t && !SaysFinal(m.status)
  {
    assert NotifyTask(s, m, clock).id == m.TaskId();
  }

  lemma RefusalRestartsNothing(s: DState, journalId: Id, author: Id, msg: Delegate, clock: Clock, s': DState)
    requires FailureRecorded(s, journalId, author, msg, clock, s')
    ensures s'.active == s.active
  {
    assert Recorded(None, msg.id, msg.to, SaysFailed, clock.utc).status == Failed;
  }

  lemma DelegateRestartsNothing(cfg: Config, s: DState, msg: Delegate, approvalId: Id, clock: Clock, s': DState)
    requires Delegated(cfg, s, msg, approvalId, clock, s')
    ensures s'.active == s.active
  {
    if cfg.policy(msg) == Deny {
      RefusalRestartsNothing(s, msg.id, msg.from, msg, clock, s');
    }
  }

  lemma SweepRestartsNothing(s: DState, order: seq<Id>, clock: Clock, s': DState, t: Id)
    requires Swept(s, order, clock, s') && t !in s.active
    ensures t !in s'.active
  {
    SweepMovesExactlyTheOverdue(s, order, clock, s');
  }

  /**
   A finished task becomes active in exactly two ways: by a report that is neither
   final nor an acknowledgement, and by a lease for a DELEGATE that reuses its id.
   */
  lemma FinishedTaskRestarts(cfg: Config, s: Sys, l: Label, s': Sys, t: Id)
    requires Consistent(s.d) && Step(cfg, s, l, s')
    requires t in s.d.completed && t !in s.d.active
    ensures t in s'.d.active <==> ReportsProgress(l, t) || LeasesAgain(s, l, t)
  {
    match l
    case DelegateIn(msg, approvalId, clock) => DelegateRestartsNothing(cfg, s.d, msg, approvalId, clock, s'.d);
    case RecordRefusal(call, clock) =>
      var refusal := s.calls[call];
      RefusalRestartsNothing(s.d, refusal.approvalId, refusal.approver, refusal.Origin(), clock, s'.d);
    case NotifyIn(m, clock) =>
      if !m.status.SaysAck? { NotifyRestarts(s.d, m, clock, s'.d, t); }
    case Sweep(clock, order) => SweepRestartsNothing(s.d, order, clock, s'.d, t);
    case _ =>
  }

  /** With fresh ids only the report is left. */
  lemma FreshFinishedTaskRestarts(cfg: Config, s: Sys, l: Label, s': Sys, t: Id)
    requires Orderly(s) && FreshLabel(s, l) && Step(cfg, s, l, s') && t in s.d.completed
    ensures t in s'.d.active <==> ReportsProgress(l, t)
  {
    FinishedTaskRestarts(cfg, s, l, s', t);
  }

  /** A restarted task has all its notices, one more, and no lease. */
  lemma RestartedTaskHasNoLease(s: DState, m: Notify, clock: Clock, s': DState)
    requires Consistent(s) && Notified(s, m, clock, s') && !SaysFinal(m.status)
    requires m.TaskId() in s.completed && m.TaskId() !in s.active
    ensures var t := m.TaskId();
            && t in s'.active && t !in s'.completed && t !in s'.leases
            && s'.active[t].notifications == s.completed[t].notifications + [Notice(clock.utc, m.status)]
  {
    assert NotifyTask(s, m, clock).id == m.TaskId();
  }
}
