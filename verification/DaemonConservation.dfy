/**
 Bookkeeping over whole runs in which ids are fresh: a DELEGATE id is never used
 twice, and a NOTIFY names a task that has already been leased or recorded.
 */
module DaemonConservation {
  import opened Wrappers
  import opened DaemonModel
  import opened DaemonKeeps
  import opened DaemonProtocol

  ghost predicate FreshLabel(s: Sys, l: Label) {
    && (l.DelegateIn? ==> l.msg.id !in s.past.asked)
    && (l.NotifyIn? && !l.m.status.SaysAck? ==> l.m.TaskId() in s.past.known)
  }

  ghost predicate FreshRun(cfg: Config, states: seq<Sys>, labels: seq<Label>) {
    && Run(cfg, states, labels)
    && forall i :: 0 <= i < |labels| ==> FreshLabel(states[i], labels[i])
  }

  /** No task is in two places at once. */
  ghost predicate Apart(d: DState) {
    && (forall t <- d.leases :: t !in d.expired)
    && (forall t <- d.active :: t !in d.completed && t !in d.expired)
  }

  /** Only tasks of `known` are on file. */
  ghost predicate Within(d: DState, known: set<Id>) {
    && (forall t <- d.leases :: t in known) && (forall t <- d.expired :: t in known)
    && (forall t <- d.active :: t in known) && (forall t <- d.completed :: t in known)
  }

  /** Tasks waiting for a lease or a verdict have been asked for, are not known yet, and are all different. */
  ghost predicate WaitingApart(calls: map<nat, Call>, approvals: map<Id, PendingApproval>,
                               asked: set<Id>, known: set<Id>)
  {
    && (forall i <- calls :: calls[i].Origin().id in asked && calls[i].Origin().id !in known)
    && (forall a <- approvals :: approvals[a].original.id in asked && approvals[a].original.id !in known)
    && (forall i, j :: i in calls && j in calls && i != j ==> calls[i].Origin().id != calls[j].Origin().id)
    && (forall a, b :: a in approvals && b in approvals && a != b
                       ==> approvals[a].original.id != approvals[b].original.id)
    && (forall i, a :: i in calls && a in approvals ==> calls[i].Origin().id != approvals[a].original.id)
  }

  /** Every lease ever created is live, expired, or was settled by a NOTIFY. */
  ghost predicate Balanced(s: Sys) {
    s.past.created == |s.d.leases| + |s.d.expired| + s.past.settled
  }

  ghost predicate Orderly(s: Sys) {
    Consistent(s.d) && Separate(s) && Waiting(s)
  }

  lemma FiledApart(active: map<Id, Task>, completed: map<Id, Task>, task: Task,
                   active': map<Id, Task>, completed': map<Id, Task>)
    requires Filed(active, completed, task, active', completed')
    requires task.id !in active && task.id !in completed
    requires forall t <- active :: t !in completed
    ensures forall t <- active' :: t !in completed'
    ensures forall t <- active' :: t in active || t == task.id
    ensures forall t <- completed' :: t in completed || t == task.id
  {
  }

  /** A task taken out of its store and filed again is in one store only. */
  lemma RefiledApart(d: DState, t: Id, task: Task, d': DState, known: set<Id>)
    requires Apart(d) && Within(d, known) && task.id == t
    requires Filed(Drop(d.active, t), CompletedWithout(d.active, d.completed, t), task, d'.active, d'.completed)
    ensures forall u <- d'.active :: u !in d'.completed && (u in d.active || u == t)
    ensures forall u <- d'.completed :: u in known + {t}
  {
    if t in d.active {
      FiledApart(Drop(d.active, t), d.completed, task, d'.active, d'.completed);
    } else {
      FiledApart(Drop(d.active, t), Drop(d.completed, t), task, d'.active, d'.completed);
    }
  }

  lemma NotifiedApart(d: DState, m: Notify, clock: Clock, d': DState, known: set<Id>)
    requires Consistent(d) && Apart(d) && Within(d, known) && Notified(d, m, clock, d')
    ensures Apart(d') && Within(d', known + {m.TaskId()})
  {
    assert NotifyTask(d, m, clock).id == m.TaskId();
    RefiledApart(d, m.TaskId(), NotifyTask(d, m, clock), d', known);
  }

  lemma NotifiedCount(d: DState, m: Notify, clock: Clock, d': DState)
    requires Notified(d, m, clock, d')
    ensures |d.leases| + |d.expired| == |d'.leases| + |d'.expired|
                                        + if SettledLease(d, m.TaskId()).Some? then 1 else 0
  {
    RemovedOne(d.leases, m.TaskId());
    RemovedOne(d.expired, m.TaskId());
  }

  lemma FailureRecordedApart(d: DState, journalId: Id, author: Id, msg: Delegate, clock: Clock, d': DState,
                             known: set<Id>)
    requires Apart(d) && Within(d, known) && msg.id !in known
    requires FailureRecorded(d, journalId, author, msg, clock, d')
    ensures Apart(d') && Within(d', known + {msg.id})
  {
    FiledApart(d.active, d.completed, Recorded(None, msg.id, msg.to, SaysFailed, clock.utc), d'.active, d'.completed);
  }

  lemma LeaseCreatedApart(d: DState, msg: Delegate, notifyWorker: bool, clock: Clock, d': DState, known: set<Id>)
    requires Apart(d) && Within(d, known) && msg.id !in known
    requires LeaseCreated(d, msg, notifyWorker, clock, d')
    ensures Apart(d') && Within(d', known + {msg.id})
    ensures |d'.leases| == |d.leases| + 1
  {
  }

  lemma LeaseExpiredCount(d: DState, t: Id, clock: Clock, d': DState)
    requires Apart(d) && LeaseExpired(d, t, clock, d')
    ensures |d'.leases| + |d'.expired| == |d.leases| + |d.expired|
  {
    RemovedOne(d.leases, t);
  }

  /** An active task that fails leaves the active store for the completed one, or for none. */
  lemma ExpiredTasksGoOn(active: map<Id, Task>, completed: map<Id, Task>, task: Task,
                         active': map<Id, Task>, completed': map<Id, Task>)
    requires Filed(Drop(active, task.id), completed, task, active', completed') && task.status == Failed
    requires task.id in active && forall t <- active :: t !in completed
    ensures active' == Drop(active, task.id)
    ensures forall t <- completed' :: t in completed || t == task.id
    ensures forall t <- active' :: t !in completed'
  {
  }

  lemma ExpiredTasksApart(d: DState, t: Id, clock: Clock, d': DState)
    requires Consistent(d) && Apart(d) && LeaseExpired(d, t, clock, d')
    ensures d'.active == Drop(d.active, t) && t in d.active
    ensures forall u <- d'.completed :: u in d.completed || u == t
    ensures forall u <- d'.active :: u !in d'.completed
  {
    assert t in d.active && ExpiredTask(d, t, clock).id == t;
    ExpiredTasksGoOn(d.active, d.completed, ExpiredTask(d, t, clock), d'.active, d'.completed);
  }

  lemma LeaseExpiredApart(d: DState, t: Id, clock: Clock, d': DState, known: set<Id>)
    requires Consistent(d) && Apart(d) && Within(d, known) && LeaseExpired(d, t, clock, d')
    ensures Apart(d') && Within(d', known)
    ensures |d'.leases| + |d'.expired| == |d.leases| + |d.expired|
  {
    LeaseExpiredCount(d, t, clock, d');
    ExpiredTasksApart(d, t, clock, d');
  }

  lemma {:induction false} AllExpiredApart(d: DState, order: seq<Id>, clock: Clock, d': DState, known: set<Id>)
    requires Consistent(d) && Apart(d) && Within(d, known) && AllExpired(d, order, clock, d')
    ensures Apart(d') && Within(d', known)
    ensures d'.approvals == d.approvals
    ensures |d'.leases| + |d'.expired| == |d.leases| + |d.expired|
    decreases |order|
  {
    if order != [] {
      var n := |order| - 1;
      var mid := LastExpiry(d, order, clock, d');
      AllExpiredKeeps(d, order[..n], clock, mid);
      AllExpiredApart(d, order[..n], clock, mid, known);
      LeaseExpiredApart(mid, order[n], clock, d', known);
    }
  }

  lemma StepOrderly(cfg: Config, s: Sys, l: Label, s': Sys)
    requires Orderly(s) && FreshLabel(s, l) && Step(cfg, s, l, s')
    ensures Orderly(s')
  {
    StepConsistent(cfg, s, l, s');
    StepBalanced(cfg, s, l, s');
    StepWaiting(cfg, s, l, s');
  }

  /** Stores apart, known tasks only, and the books balanced. */
  ghost predicate Separate(s: Sys) {
    Apart(s.d) && Within(s.d, s.past.known) && Balanced(s)
  }

  /** Sections that touch neither leases nor tasks. */
  predicate Quiet(l: Label) {
    l.Register? || l.Heartbeat? || l.PollQueue? || l.Decide? || l.RecordGrant? || l.Status?
  }

  lemma QuietBalanced(cfg: Config, s: Sys, l: Label, s': Sys)
    requires Separate(s) && Quiet(l) && Step(cfg, s, l, s')
    ensures Separate(s')
  {
    assert SameTasks(s.d, s'.d) && SameLeases(s.d, s'.d);
  }

  lemma DelegateBalanced(cfg: Config, s: Sys, l: Label, s': Sys)
    requires Separate(s) && s.past.known <= s.past.asked && FreshLabel(s, l) && l.DelegateIn? && Step(cfg, s, l, s')
    ensures Separate(s')
  {
    if cfg.policy(l.msg) == Deny {
      FailureRecordedApart(s.d, l.msg.id, l.msg.from, l.msg, l.clock, s'.d, s.past.known);
    }
  }

  lemma CreateBalanced(cfg: Config, s: Sys, l: Label, s': Sys)
    requires Separate(s) && WaitingApart(s.calls, s.d.approvals, s.past.asked, s.past.known)
    requires l.CreateLease? && Step(cfg, s, l, s')
    ensures Separate(s')
  {
    LeaseCreatedApart(s.d, s.calls[l.call].Origin(), s.calls[l.call].NotifiesWorker(), l.clock, s'.d, s.past.known);
  }

  lemma RefusalBalanced(cfg: Config, s: Sys, l: Label, s': Sys)
    requires Separate(s) && WaitingApart(s.calls, s.d.approvals, s.past.asked, s.past.known)
    requires l.RecordRefusal? && Step(cfg, s, l, s')
    ensures Separate(s')
  {
    var refusal := s.calls[l.call];
    FailureRecordedApart(s.d, refusal.approvalId, refusal.approver, refusal.Origin(), l.clock, s'.d, s.past.known);
  }

  lemma NotifyBalanced(cfg: Config, s: Sys, l: Label, s': Sys)
    requires Separate(s) && Consistent(s.d) && l.NotifyIn? && Step(cfg, s, l, s')
    ensures Separate(s')
  {
    if !l.m.status.SaysAck? {
      NotifiedApart(s.d, l.m, l.clock, s'.d, s.past.known);
      NotifiedCount(s.d, l.m, l.clock, s'.d);
    }
  }

  lemma SweepBalanced(cfg: Config, s: Sys, l: Label, s': Sys)
    requires Separate(s) && Consistent(s.d) && l.Sweep? && Step(cfg, s, l, s')
    ensures Separate(s')
  {
    var mid := SweptInTwo(s.d, l.order, l.clock, s'.d);
    AllExpiredApart(s.d, l.order, l.clock, mid, s.past.known);
  }

  lemma StepBalanced(cfg: Config, s: Sys, l: Label, s': Sys)
    requires Orderly(s) && FreshLabel(s, l) && Step(cfg, s, l, s')
    ensures Separate(s')
  {
    match l
    case DelegateIn(_, _, _) => DelegateBalanced(cfg, s, l, s');
    case CreateLease(_, _) => CreateBalanced(cfg, s, l, s');
    case RecordRefusal(_, _) => RefusalBalanced(cfg, s, l, s');
    case NotifyIn(_, _) => NotifyBalanced(cfg, s, l, s');
    case Sweep(_, _) => SweepBalanced(cfg, s, l, s');
    case _ => QuietBalanced(cfg, s, l, s');
  }

  lemma CallJoins(calls: map<nat, Call>, approvals: map<Id, PendingApproval>, asked: set<Id>, known: set<Id>,
                  i: nat, call: Call)
    requires WaitingApart(calls, approvals, asked, known) && known <= asked && call.Origin().id !in asked
    ensures WaitingApart(calls[i := call], approvals, asked + {call.Origin().id}, known)
  {
  }

  lemma NobodyJoins(calls: map<nat, Call>, approvals: map<Id, PendingApproval>, asked: set<Id>, known: set<Id>, id: Id)
    requires WaitingApart(calls, approvals, asked, known) && id !in asked
    ensures WaitingApart(calls, approvals, asked + {id}, known)
    ensures WaitingApart(calls, approvals, asked + {id}, known + {id})
  {
  }

  lemma ApprovalJoins(calls: map<nat, Call>, approvals: map<Id, PendingApproval>, asked: set<Id>, known: set<Id>,
                      a: Id, pending: PendingApproval)
    requires WaitingApart(calls, approvals, asked, known) && known <= asked && pending.original.id !in asked
    ensures WaitingApart(calls, approvals[a := pending], asked + {pending.original.id}, known)
  {
  }

  lemma ApprovalBecomesCall(calls: map<nat, Call>, approvals: map<Id, PendingApproval>, asked: set<Id>,
                            known: set<Id>, a: Id, i: nat, call: Call)
    requires WaitingApart(calls, approvals, asked, known) && i !in calls
    requires a in approvals && call.Origin() == approvals[a].original
    ensures WaitingApart(calls[i := call], Drop(approvals, a), asked, known)
  {
  }

  lemma CallLeaves(calls: map<nat, Call>, approvals: map<Id, PendingApproval>, asked: set<Id>, known: set<Id>, i: nat)
    requires WaitingApart(calls, approvals, asked, known) && i in calls
    ensures WaitingApart(Drop(calls, i), approvals, asked, known + {calls[i].Origin().id})
  {
  }

  /** What waits is told apart, and calls are numbered below the next one. */
  ghost predicate Waiting(s: Sys) {
    && WaitingApart(s.calls, s.d.approvals, s.past.asked, s.past.known) && s.past.known <= s.past.asked
    && forall i <- s.calls :: i < s.nextCall
  }

  lemma CallRenamed(calls: map<nat, Call>, approvals: map<Id, PendingApproval>, asked: set<Id>, known: set<Id>,
                    i: nat, call: Call)
    requires WaitingApart(calls, approvals, asked, known) && i in calls && call.Origin() == calls[i].Origin()
    ensures WaitingApart(calls[i := call], approvals, asked, known)
  {
  }

  lemma DecideWaiting(cfg: Config, s: Sys, l: Label, s': Sys)
    requires Waiting(s) && l.Decide? && Step(cfg, s, l, s')
    ensures Waiting(s')
  {
    var next := DecisionNext(s.d, l.approvalId, l.approver, l.verdict);
    if next.Some? {
      ApprovalBecomesCall(s.calls, s.d.approvals, s.past.asked, s.past.known, l.approvalId, s.nextCall, next.value);
    }
  }

  lemma CallWaiting(cfg: Config, s: Sys, l: Label, s': Sys)
    requires Waiting(s) && (l.RecordGrant? || l.CreateLease? || l.RecordRefusal?) && Step(cfg, s, l, s')
    ensures Waiting(s')
  {
    if l.RecordGrant? {
      CallRenamed(s.calls, s.d.approvals, s.past.asked, s.past.known, l.call, s'.calls[l.call]);
    } else {
      CallLeaves(s.calls, s.d.approvals, s.past.asked, s.past.known, l.call);
    }
  }

  ghost predicate SameWaiting(s: Sys, s': Sys) {
    && s'.calls == s.calls && s'.nextCall == s.nextCall && s'.d.approvals == s.d.approvals
    && s'.past.asked == s.past.asked && s'.past.known == s.past.known
  }

  lemma SweepWaiting(cfg: Config, s: Sys, l: Label, s': Sys)
    requires Step(cfg, s, l, s') && l.Sweep?
    ensures SameWaiting(s, s')
  {
    var mid := SweptInTwo(s.d, l.order, l.clock, s'.d);
    SweepLeavesApprovals(s.d, l.order, l.clock, mid);
  }

  lemma NotifyWaiting(cfg: Config, s: Sys, l: Label, s': Sys)
    requires Step(cfg, s, l, s') && FreshLabel(s, l) && l.NotifyIn?
    ensures SameWaiting(s, s')
  {
    if !l.m.status.SaysAck? {
      assert s.past.known + {l.m.TaskId()} == s.past.known;
    }
  }

  /** Sections that no handler waits for. */
  lemma OtherWaiting(cfg: Config, s: Sys, l: Label, s': Sys)
    requires Step(cfg, s, l, s') && (l.Register? || l.Heartbeat? || l.PollQueue? || l.Status?)
    ensures SameWaiting(s, s')
  {
  }

  lemma StepWaiting(cfg: Config, s: Sys, l: Label, s': Sys)
    requires Waiting(s) && FreshLabel(s, l) && Step(cfg, s, l, s')
    ensures Waiting(s')
  {
    match l
    case DelegateIn(msg, approvalId, clock) => DelegateWaiting(cfg, s, msg, approvalId, clock, s');
    case Decide(_, _, _) => DecideWaiting(cfg, s, l, s');
    case RecordGrant(_) => CallWaiting(cfg, s, l, s');
    case CreateLease(_, _) => CallWaiting(cfg, s, l, s');
    case RecordRefusal(_, _) => CallWaiting(cfg, s, l, s');
    case NotifyIn(_, _) => NotifyWaiting(cfg, s, l, s');
    case Sweep(_, _) => SweepWaiting(cfg, s, l, s');
    case _ => OtherWaiting(cfg, s, l, s');
  }

  lemma DelegateWaiting(cfg: Config, s: Sys, msg: Delegate, approvalId: Id, clock: Clock, s': Sys)
    requires Waiting(s) && msg.id !in s.past.asked && Step(cfg, s, DelegateIn(msg, approvalId, clock), s')
    ensures Waiting(s')
  {
    var calls, approvals, asked, known := s.calls, s.d.approvals, s.past.asked, s.past.known;
    match cfg.policy(msg) {
      case Allow =>
        var next := DelegateNext(cfg, s.d, msg, clock);
        if next.Some? {
          CallJoins(calls, approvals, asked, known, s.nextCall, next.value);
        } else {
          NobodyJoins(calls, approvals, asked, known, msg.id);
        }
      case NeedApproval =>
        ApprovalJoins(calls, approvals, asked, known, approvalId, s'.d.approvals[approvalId]);
      case Deny =>
        NobodyJoins(calls, approvals, asked, known, msg.id);
    }
  }

  /**
   With fresh ids, in every reachable state: leases created = live + expired +
   settled by a NOTIFY; live and expired leases, and active and completed tasks,
   are disjoint; and no task with an expired lease is active.
   */
  lemma {:induction false} LeasesAreConserved(cfg: Config, states: seq<Sys>, labels: seq<Label>, n: nat)
    requires FreshRun(cfg, states, labels) && n < |states|
    ensures Orderly(states[n])
  {
    if n > 0 {
      LeasesAreConserved(cfg, states, labels, n - 1);
      StepOrderly(cfg, states[n - 1], labels[n - 1], states[n]);
    }
  }
}
