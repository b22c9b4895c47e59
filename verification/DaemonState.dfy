/**
 The daemon state as the object it is: stores that the sections of the handlers
 update in place, one method for each section that holds the lock.
 */
module DaemonState {
  import opened Wrappers
  import opened DaemonModel
  import opened DaemonKeeps

  /** Every task of the store, each once, in some order. */
  ghost predicate ListsTasks(tasks: seq<Task>, store: map<Id, Task>) {
    && |tasks| == |store|
    && (forall t <- store :: store[t] in tasks)
    && (forall i :: 0 <= i < |tasks| ==> tasks[i].id in store && store[tasks[i].id] == tasks[i])
  }

  ghost predicate AllDifferent(tasks: seq<Task>) {
    forall i, j :: 0 <= i < j < |tasks| ==> tasks[i].id != tasks[j].id
  }

  ghost function HowMany(tasks: seq<Task>, status: TaskStatus): nat {
    if tasks == [] then 0
    else HowMany(tasks[..|tasks| - 1], status) + if tasks[|tasks| - 1].status == status then 1 else 0
  }

  datatype Snapshot = Snapshot(activeTasks: seq<Task>, completedTasks: seq<Task>,
                               totalActive: nat, totalCompleted: nat, totalFailed: nat,
                               oldestActive: Option<Id>)

  /** The store's tasks in the arbitrary order in which a hash map yields them. */
  method Values(store: map<Id, Task>) returns (tasks: seq<Task>)
    requires KeyedById(store)
    ensures ListsTasks(tasks, store)
    ensures AllDifferent(tasks)
  {
    tasks := [];
    var rest := store.Keys;
    while rest != {}
      invariant rest <= store.Keys && |tasks| + |rest| == |store|
      invariant forall t <- store :: t in rest || store[t] in tasks
      invariant forall i :: 0 <= i < |tasks| ==>
                  tasks[i].id in store && tasks[i].id !in rest && store[tasks[i].id] == tasks[i]
      invariant AllDifferent(tasks)
      decreases rest
    {
      var t :| t in rest;
      tasks := tasks + [store[t]];
      rest := rest - {t};
    }
  }

  method CountStatus(tasks: seq<Task>, status: TaskStatus) returns (count: nat)
    ensures count == HowMany(tasks, status)
  {
    count := 0;
    for i := 0 to |tasks|
      invariant count == HowMany(tasks[..i], status)
    {
      assert tasks[..i + 1][..i] == tasks[..i];
      if tasks[i].status == status {
        count := count + 1;
      }
    }
    assert tasks[..|tasks|] == tasks;
  }

  ghost predicate ByActivity(tasks: seq<Task>) {
    forall i, j :: 0 <= i < j < |tasks| ==> tasks[i].lastActivity <= tasks[j].lastActivity
  }

  /** After its equals, as in a stable sort. */
  function InsertByActivity(sorted: seq<Task>, task: Task): (longer: seq<Task>)
    requires ByActivity(sorted)
    ensures ByActivity(longer) && multiset(longer) == multiset(sorted) + multiset{task}
    ensures longer != [] && (longer[|longer| - 1] == task
                             || (sorted != [] && longer[|longer| - 1] == sorted[|sorted| - 1]))
  {
    if sorted == [] || sorted[|sorted| - 1].lastActivity <= task.lastActivity then sorted + [task]
    else
      var n := |sorted| - 1;
      assert sorted == sorted[..n] + [sorted[n]];
      InsertByActivity(sorted[..n], task) + [sorted[n]]
  }

  function SortByActivity(tasks: seq<Task>): (sorted: seq<Task>)
    ensures ByActivity(sorted) && multiset(sorted) == multiset(tasks)
  {
    if tasks == [] then []
    else
      var n := |tasks| - 1;
      assert tasks == tasks[..n] + [tasks[n]];
      InsertByActivity(SortByActivity(tasks[..n]), tasks[n])
  }

  class State {
    const config: Config
    var clients: map<Id, Time>
    var leases: map<Id, Lease>
    var expired: map<Id, Lease>
    var queues: map<Id, seq<Msg>>
    var approvals: map<Id, PendingApproval>
    var active: map<Id, Task>
    var completed: map<Id, Task>
    var journal: seq<JournalLine>
    ghost var sent: seq<Envelope>
    ghost var got: seq<Envelope>

    ghost function View(): DState
      reads this
    {
      DState(clients, leases, expired, queues, approvals, active, completed, journal, sent, got)
    }

    ghost predicate Valid()
      reads this
    {
      Consistent(View())
    }

    constructor (config: Config)
      ensures this.config == config && View() == EMPTY && Valid()
    {
      this.config := config;
      clients, leases, expired, queues := map[], map[], map[], map[];
      approvals, active, completed, journal := map[], map[], map[], [];
      sent, got := [], [];
    }

    // ---- helpers of the sections -------------------------------------------

    method AddNotification(client: Id, msg: Msg)
      modifies this`queues, this`sent
      ensures queues == Put(old(queues), Envelope(client, msg))
      ensures sent == old(sent) + [Envelope(client, msg)]
    {
      var waiting := if client in queues then queues[client] else [];
      queues := queues[client := waiting + [msg]];
      sent := sent + [Envelope(client, msg)];
    }

    method GetNotifications(client: Id) returns (waiting: seq<Msg>)
      modifies this`queues
      ensures waiting == QueueOf(old(queues), client) && queues == Drop(old(queues), client)
    {
      waiting := if client in queues then queues[client] else [];
      queues := Drop(queues, client);
    }

    method AppendJournal(event: Event, msgId: Id, from: Id, to: Id)
      modifies this`journal
      ensures journal == old(journal) + [JournalLine(event, msgId, from, to)]
    {
      journal := journal + [JournalLine(event, msgId, from, to)];
    }

    method PruneCompleted()
      requires KeyedById(completed)
      modifies this`completed
      ensures Pruned(old(completed), completed)
    {
      if |completed| <= MAX_COMPLETED_TASKS {
        return;
      }
      var tasks := Values(completed);
      var sorted := SortByActivity(tasks);
      SortedOnce(tasks, sorted, completed);
      RemoveFirst(sorted, |completed| - MAX_COMPLETED_TASKS);
      FirstRemoved(old(completed), sorted, |old(completed)| - MAX_COMPLETED_TASKS, completed);
    }

    method RemoveFirst(tasks: seq<Task>, count: nat)
      requires ListsTasks(tasks, completed) && AllDifferent(tasks) && count <= |tasks|
      modifies this`completed
      ensures |completed| == |old(completed)| - count
      ensures forall t <- completed :: t in old(completed) && completed[t] == old(completed)[t]
      ensures forall k :: 0 <= k < count ==> tasks[k].id !in completed
      ensures forall k :: count <= k < |tasks| ==> tasks[k].id in completed
    {
      for i := 0 to count
        invariant |completed| == |old(completed)| - i
        invariant forall t <- completed :: t in old(completed) && completed[t] == old(completed)[t]
        invariant forall k :: 0 <= k < i ==> tasks[k].id !in completed
        invariant forall k :: i <= k < |tasks| ==> tasks[k].id in completed
      {
        RemovedOne(completed, tasks[i].id);
        completed := Drop(completed, tasks[i].id);
      }
    }

    method FinalizeTask(task: Task)
      requires KeyedById(completed)
      modifies this`active, this`completed
      ensures Filed(old(active), old(completed), task, active, completed)
    {
      match task.status {
        case Completed | Failed | Cancelled =>
          completed := completed[task.id := task];
          PruneCompleted();
        case _ =>
          active := active[task.id := task];
      }
    }

    /** The record leaves the active store or, if it is not there, the completed one. */
    method TakeTask(t: Id) returns (task: Option<Task>)
      modifies this`active, this`completed
      ensures task == FoundTask(old(active), old(completed), t)
      ensures active == Drop(old(active), t) && completed == CompletedWithout(old(active), old(completed), t)
    {
      if t in active {
        task := Some(active[t]);
        active := Drop(active, t);
      } else {
        task := if t in completed then Some(completed[t]) else None;
        completed := Drop(completed, t);
        assert active == Drop(active, t);
      }
    }

    /** A NOTIFY for one client, and the journal line that goes with it. */
    method Announce(t: Id, author: Id, sender: Id, target: Id, word: StatusWord)
      modifies this`queues, this`sent, this`journal
      ensures queues == PutAll(old(queues), [Envelope(target, Msg(NotifyMsg(word), t, sender, target))])
      ensures sent == old(sent) + [Envelope(target, Msg(NotifyMsg(word), t, sender, target))]
      ensures journal == old(journal) + [JournalLine(NotifyEvent, t, author, target)]
    {
      OnePut(queues, Envelope(target, Msg(NotifyMsg(word), t, sender, target)));
      AddNotification(target, Msg(NotifyMsg(word), t, sender, target));
      AppendJournal(NotifyEvent, t, author, target);
    }

    /** The record is taken out, updated or made up, and filed again by its new status. */
    method UpdateTask(t: Id, worker: Id, word: StatusWord, utc: Time)
      requires CompletedClosed(completed)
      modifies this`active, this`completed
      ensures Filed(Drop(old(active), t), CompletedWithout(old(active), old(completed), t),
                    Recorded(FoundTask(old(active), old(completed), t), t, worker, word, utc), active, completed)
    {
      CompletedWithoutKeeps(active, completed, t);
      var task := TakeTask(t);
      FinalizeTask(Recorded(task, t, worker, word, utc));
    }

    // ---- sections -----------------------------------------------------------

    method HandleRegister(msgId: Id, client: Id, version: Option<string>, clock: Clock) returns (accepted: bool)
      requires Valid()
      modifies this
      ensures Valid() && Registered(config, old(View()), msgId, client, version, clock, View())
      ensures accepted <==> config.expectedVersion == None || version == config.expectedVersion
    {
      if config.expectedVersion.Some? && version != config.expectedVersion {
        return false;
      }
      clients := clients[client := clock.instant];
      AppendJournal(RegisterEvent, msgId, client, ORCHESTRATOR);
      accepted := true;
    }

    method HandlePoll(client: Id) returns (reply: Option<Msg>)
      requires Valid()
      modifies this
      ensures Valid() && Polled(old(View()), client, View())
      ensures reply == if QueueOf(old(queues), client) == [] then None else Some(QueueOf(old(queues), client)[0])
    {
      var waiting := GetNotifications(client);
      if waiting == [] {
        reply := None;
      } else {
        reply := Some(waiting[0]);
        got := got + [Envelope(client, waiting[0])];
      }
    }

    method HandleHeartbeat(client: Id, clock: Clock) returns (reply: Option<Msg>)
      requires Valid()
      modifies this
      ensures Valid() && HeartBeaten(old(View()), client, clock, View())
      ensures reply == if QueueOf(old(queues), client) == [] then None else Some(QueueOf(old(queues), client)[0])
    {
      if client in clients {
        clients := clients[client := clock.instant];
      }
      reply := HandlePoll(client);
    }

    method QueueFailures(msg: Delegate)
      modifies this`queues, this`sent
      ensures queues == PutAll(old(queues), FailureMail(msg)) && sent == old(sent) + FailureMail(msg)
    {
      var target := msg.ReturnTarget();
      AddNotification(target, Msg(NotifyMsg(SaysFailed), msg.id, ORCHESTRATOR, target));
      if target != msg.from {
        AddNotification(msg.from, Msg(NotifyMsg(SaysFailed), msg.id, ORCHESTRATOR, msg.from));
      }
      TwoPuts(old(queues), msg);
    }

    method FileFailure(journalId: Id, author: Id, msg: Delegate, clock: Clock)
      requires CompletedClosed(completed)
      modifies this`active, this`completed, this`queues, this`sent, this`journal
      ensures Filed(old(active), old(completed), Recorded(None, msg.id, msg.to, SaysFailed, clock.utc), active, completed)
      ensures queues == PutAll(old(queues), FailureMail(msg)) && sent == old(sent) + FailureMail(msg)
      ensures journal == old(journal) + [JournalLine(PolicyEvent, journalId, author, ORCHESTRATOR)]
    {
      AppendJournal(PolicyEvent, journalId, author, ORCHESTRATOR);
      QueueFailures(msg);
      FinalizeTask(Recorded(None, msg.id, msg.to, SaysFailed, clock.utc));
    }

    /** A delegation denied by the policy, or refused by the approver. */
    method RecordFailure(journalId: Id, author: Id, msg: Delegate, clock: Clock)
      requires Valid()
      modifies this
      ensures Valid() && FailureRecorded(old(View()), journalId, author, msg, clock, View())
    {
      FileFailure(journalId, author, msg, clock);
      FailureRecordedKeeps(old(View()), journalId, author, msg, clock, View());
    }

    method RequestApproval(msg: Delegate, approvalId: Id, clock: Clock)
      requires Valid()
      modifies this
      ensures Valid() && ApprovalRequested(config, old(View()), msg, approvalId, clock, View())
    {
      approvals := approvals[approvalId := PendingApproval(msg.id, msg, msg.tool, clock.instant)];
      AddNotification(config.approver, Msg(ApprovalMsg, approvalId, ORCHESTRATOR, config.approver));
      AppendJournal(PolicyEvent, approvalId, ORCHESTRATOR, config.approver);
      OnePut(old(queues), Envelope(config.approver, Msg(ApprovalMsg, approvalId, ORCHESTRATOR, config.approver)));
    }

    method HandleDelegate(msg: Delegate, approvalId: Id, clock: Clock) returns (next: Option<Call>)
      requires Valid()
      modifies this
      ensures Valid() && Delegated(config, old(View()), msg, approvalId, clock, View())
      ensures next == DelegateNext(config, old(View()), msg, clock)
    {
      next := None;
      match config.policy(msg) {
        case Deny => RecordFailure(msg.id, msg.from, msg, clock);
        case NeedApproval => RequestApproval(msg, approvalId, clock);
        case Allow =>
          if msg.to in config.workers {
            next := Some(Delegation(msg, false));
          } else if msg.to in clients && clock.instant - clients[msg.to] < HEARTBEAT_TIMEOUT {
            next := Some(Delegation(msg, true));
          }
      }
    }

    method ProceedWithDelegation(msg: Delegate, notifyWorker: bool, clock: Clock)
      requires Valid()
      modifies this
      ensures Valid() && LeaseCreated(old(View()), msg, notifyWorker, clock, View())
    {
      leases := leases[msg.id := Lease(msg.id, msg.to, msg.from, clock.instant + LEASE_TTL, msg.returnTo)];
      var status := if notifyWorker then Pending else InProgress;
      active := active[msg.id := Task(msg.id, msg.to, clock.utc, status, clock.utc, [])];
      if notifyWorker {
        AddNotification(msg.to, Msg(TaskMsg, msg.id, ORCHESTRATOR, msg.to));
        OnePut(old(queues), Envelope(msg.to, Msg(TaskMsg, msg.id, ORCHESTRATOR, msg.to)));
      }
      AppendJournal(DelegateEvent, msg.id, msg.from, msg.to);
      assert sent == old(sent) + if notifyWorker then [Envelope(msg.to, Msg(TaskMsg, msg.id, ORCHESTRATOR, msg.to))]
                                 else [];
      LeaseCreatedKeeps(old(View()), msg, notifyWorker, clock, View());
    }

    method TakeApproval(approvalId: Id, approver: Id, verdict: Verdict) returns (next: Option<Call>)
      requires Valid()
      modifies this
      ensures Valid() && ApprovalTaken(old(View()), approvalId, View())
      ensures next == DecisionNext(old(View()), approvalId, approver, verdict)
    {
      next := None;
      if approvalId in approvals {
        var pending := approvals[approvalId];
        approvals := Drop(approvals, approvalId);
        match verdict {
          case Granted => next := Some(GrantTaken(approvalId, pending, approver));
          case Refused => next := Some(RefusalTaken(approvalId, pending, approver));
          case Unclear =>
        }
      } else {
        assert approvals == Drop(approvals, approvalId);
      }
    }

    method LogGrant(approvalId: Id, approver: Id)
      requires Valid()
      modifies this
      ensures Valid() && GrantLogged(old(View()), approvalId, approver, View())
    {
      AppendJournal(PolicyEvent, approvalId, approver, ORCHESTRATOR);
    }

    /** The live lease is settled first; only if there is none, the expired one. */
    method SettleLease(t: Id) returns (lease: Option<Lease>)
      modifies this`leases, this`expired
      ensures lease == SettledIn(old(leases), old(expired), t)
      ensures leases == Drop(old(leases), t)
      ensures t in old(leases) ==> expired == old(expired)
      ensures t !in old(leases) ==> expired == Drop(old(expired), t)
    {
      if t in leases {
        lease := Some(leases[t]);
        leases := Drop(leases, t);
      } else {
        assert leases == Drop(leases, t);
        lease := if t in expired then Some(expired[t]) else None;
        expired := Drop(expired, t);
      }
    }

    /** What a NOTIFY does to each store. */
    method TakeNotify(m: Notify, clock: Clock)
      requires CompletedClosed(completed)
      modifies this`leases, this`expired, this`active, this`completed, this`queues, this`sent, this`journal
      ensures leases == Drop(old(leases), m.TaskId())
      ensures m.TaskId() in old(leases) ==> expired == old(expired)
      ensures m.TaskId() !in old(leases) ==> expired == Drop(old(expired), m.TaskId())
      ensures var lease := SettledIn(old(leases), old(expired), m.TaskId());
              && Filed(Drop(old(active), m.TaskId()), CompletedWithout(old(active), old(completed), m.TaskId()),
                       ReportedTask(lease, old(active), old(completed), m, clock), active, completed)
              && queues == PutAll(old(queues), [ReportMsg(lease, m)]) && sent == old(sent) + [ReportMsg(lease, m)]
              && journal == old(journal) + [JournalLine(NotifyEvent, m.TaskId(), m.from, ReportTarget(lease, m))]
    {
      var t := m.TaskId();
      var lease := SettleLease(t);
      var worker, target;
      match lease {
        case Some(l) => worker, target := l.assignedTo, m.returnTo.GetOr(l.originalFrom);
        case None => worker, target := m.from, m.returnTo.GetOr(m.from);
      }
      UpdateTask(t, worker, m.status, clock.utc);
      Announce(t, m.from, ORCHESTRATOR, target, m.status);
    }

    /** An ACK leaves leases and tasks alone. */
    method HandleNotify(m: Notify, clock: Clock)
      requires Valid()
      modifies this
      ensures Valid()
      ensures m.status.SaysAck? ==> View() == old(View())
      ensures !m.status.SaysAck? ==> Notified(old(View()), m, clock, View())
    {
      if m.status.SaysAck? {
        return;
      }
      TakeNotify(m, clock);
      NotifiedKeeps(old(View()), m, clock, View());
    }

    method RetireLease(t: Id)
      requires t in leases
      modifies this`leases, this`expired
      ensures leases == Drop(old(leases), t) && expired == old(expired)[t := old(leases)[t]]
    {
      expired := expired[t := leases[t]];
      leases := Drop(leases, t);
    }

    /** The task of an expired lease fails, and whoever the lease names hears of it. */
    method FailAndTell(t: Id, lease: Lease, clock: Clock)
      requires CompletedClosed(completed)
      modifies this`active, this`completed, this`queues, this`sent, this`journal
      ensures Filed(Drop(old(active), t), CompletedWithout(old(active), old(completed), t),
                    ExpiredRecord(lease, old(active), old(completed), t, clock), active, completed)
      ensures queues == PutAll(old(queues), [TimeoutMsg(t, lease)]) && sent == old(sent) + [TimeoutMsg(t, lease)]
      ensures journal == old(journal) + [TimeoutLine(t, lease)]
    {
      UpdateTask(t, lease.assignedTo, SaysFailed, clock.utc);
      Announce(t, lease.assignedTo, lease.assignedTo, lease.ReturnTarget(), SaysFailed);
    }

    /** What one expiry does to each store. */
    method RetireAndFail(t: Id, clock: Clock)
      requires CompletedClosed(completed) && t in leases
      modifies this`leases, this`expired, this`active, this`completed, this`queues, this`sent, this`journal
      ensures leases == Drop(old(leases), t) && expired == old(expired)[t := old(leases)[t]]
      ensures Filed(Drop(old(active), t), CompletedWithout(old(active), old(completed), t),
                    ExpiredRecord(old(leases)[t], old(active), old(completed), t, clock), active, completed)
      ensures queues == PutAll(old(queues), [TimeoutMsg(t, old(leases)[t])])
      ensures sent == old(sent) + [TimeoutMsg(t, old(leases)[t])]
      ensures journal == old(journal) + [TimeoutLine(t, old(leases)[t])]
    {
      var lease := leases[t];
      RetireLease(t);
      FailAndTell(t, lease, clock);
    }

    /** One turn of the sweep's loop. */
    method ExpireLease(t: Id, clock: Clock)
      requires CompletedClosed(completed) && t in leases
      modifies this
      ensures LeaseExpired(old(View()), t, clock, View())
    {
      RetireAndFail(t, clock);
    }

    method ExpireOverdue(clock: Clock) returns (ghost order: seq<Id>)
      requires Valid()
      modifies this
      ensures Valid() && AllExpired(old(View()), order, clock, View())
      ensures Enumerates(order, OverdueLeases(old(View()), clock))
    {
      ghost var start := View();
      var rest := set t | t in leases && clock.instant > leases[t].deadline;
      order := [];
      while rest != {}
        invariant Sweeping(start, order, rest, clock, View())
        decreases rest
      {
        var t :| t in rest;
        ghost var before := View();
        ExpireLease(t, clock);
        SweepOn(start, order, rest, clock, before, t, View());
        order, rest := order + [t], rest - {t};
      }
    }

    method DropDead(clock: Clock)
      requires Valid()
      modifies this`clients, this`queues
      ensures Valid() && DeadDropped(old(View()), clock, View())
    {
      var dead := set c | c in clients && clock.instant - clients[c] > HEARTBEAT_TIMEOUT;
      assert dead == DeadClients(View(), clock);
      clients := clients - dead;
      queues := queues - dead;
    }

    method CleanupExpired(clock: Clock) returns (ghost order: seq<Id>)
      requires Valid()
      modifies this
      ensures Valid() && Swept(old(View()), order, clock, View())
    {
      order := ExpireOverdue(clock);
      DropDead(clock);
    }

    method OldestOf(tasks: seq<Task>) returns (oldest: Option<Id>)
      ensures oldest.None? <==> tasks == []
      ensures oldest.Some? ==> exists i :: 0 <= i < |tasks| && tasks[i].id == oldest.value
                                           && forall k :: 0 <= k < |tasks| ==> tasks[i].createdAt <= tasks[k].createdAt
    {
      if tasks == [] {
        return None;
      }
      var at := 0;
      for i := 0 to |tasks|
        invariant at < |tasks|
        invariant forall k :: 0 <= k < i ==> tasks[at].createdAt <= tasks[k].createdAt
      {
        if tasks[i].createdAt < tasks[at].createdAt {
          at := i;
        }
      }
      oldest := Some(tasks[at].id);
    }

    /** What a status request answers; cancelled tasks are stored but not totalled. */
    method BuildSnapshot() returns (snap: Snapshot)
      requires Valid()
      ensures ListsTasks(snap.activeTasks, active) && ListsTasks(snap.completedTasks, completed)
      ensures snap.totalActive == |active|
      ensures snap.totalCompleted == HowMany(snap.completedTasks, Completed)
      ensures snap.totalFailed == HowMany(snap.completedTasks, Failed)
      ensures snap.totalCompleted + snap.totalFailed + HowMany(snap.completedTasks, Cancelled) == |completed|
      ensures snap.oldestActive.None? <==> active == map[]
      ensures snap.oldestActive.Some? ==>
                snap.oldestActive.value in active
                && forall t <- active :: active[snap.oldestActive.value].createdAt <= active[t].createdAt
    {
      var activeTasks := Values(active);
      var completedTasks := Values(completed);
      var totalCompleted := CountStatus(completedTasks, Completed);
      var totalFailed := CountStatus(completedTasks, Failed);
      var oldest := OldestOf(activeTasks);
      forall i | 0 <= i < |completedTasks|
        ensures completedTasks[i].status.Terminal()
      {
        assert completed[completedTasks[i].id] == completedTasks[i];
      }
      StatusesAddUp(completedTasks);
      if activeTasks == [] {
        assert active == map[];
      }
      snap := Snapshot(activeTasks, completedTasks, |activeTasks|, totalCompleted, totalFailed, oldest);
    }
  }

  lemma SortedOnce(tasks: seq<Task>, sorted: seq<Task>, store: map<Id, Task>)
    requires KeyedById(store) && ListsTasks(tasks, store) && AllDifferent(tasks)
    requires multiset(sorted) == multiset(tasks)
    ensures ListsTasks(sorted, store) && AllDifferent(sorted)
  {
    assert |sorted| == |multiset(sorted)| == |multiset(tasks)| == |tasks|;
    forall t | t in store
      ensures store[t] in sorted
    {
      assert store[t] in multiset(tasks);
    }
    forall i | 0 <= i < |sorted|
      ensures sorted[i] in tasks
    {
      assert sorted[i] in multiset(sorted);
    }
    forall i, j | 0 <= i < j < |sorted|
      ensures sorted[i].id != sorted[j].id
    {
      if sorted[i].id == sorted[j].id {
        TwiceInMultiset(sorted, i, j);
        OnceInMultiset(tasks, sorted[i]);
      }
    }
  }

  lemma TwiceInMultiset(s: seq<Task>, i: nat, j: nat)
    requires i < j < |s| && s[i] == s[j]
    ensures multiset(s)[s[i]] >= 2
  {
    assert s == s[..i] + [s[i]] + s[i + 1..j] + [s[j]] + s[j + 1..];
  }

  lemma {:induction false} OnceInMultiset(s: seq<Task>, x: Task)
    requires forall i, j :: 0 <= i < j < |s| ==> s[i] != s[j]
    ensures multiset(s)[x] <= 1
  {
    if s != [] {
      var n := |s| - 1;
      OnceInMultiset(s[..n], x);
      assert s == s[..n] + [s[n]];
      if x == s[n] {
        assert x !in s[..n];
      }
    }
  }

  /** What is left when the least recently active tasks are removed is the store, pruned. */
  lemma FirstRemoved(before: map<Id, Task>, sorted: seq<Task>, count: nat, after: map<Id, Task>)
    requires KeyedById(before) && ListsTasks(sorted, before) && ByActivity(sorted)
    requires |before| == MAX_COMPLETED_TASKS + count && |after| == MAX_COMPLETED_TASKS
    requires forall t <- after :: t in before && after[t] == before[t]
    requires forall k :: 0 <= k < count ==> sorted[k].id !in after
    requires forall k :: count <= k < |sorted| ==> sorted[k].id in after
    ensures Pruned(before, after)
  {
    forall gone, kept | gone in before && gone !in after && kept in after
      ensures before[gone].lastActivity <= before[kept].lastActivity
    {
      var i :| 0 <= i < |sorted| && sorted[i] == before[gone];
      var j :| 0 <= j < |sorted| && sorted[j] == before[kept];
      assert i < count <= j;
    }
  }

  /** When every status is terminal, the three counts cover the list. */
  lemma {:induction false} StatusesAddUp(tasks: seq<Task>)
    requires forall i :: 0 <= i < |tasks| ==> tasks[i].status.Terminal()
    ensures HowMany(tasks, Completed) + HowMany(tasks, Failed) + HowMany(tasks, Cancelled) == |tasks|
  {
    if tasks != [] {
      var n := |tasks| - 1;
      assert tasks[n].status.Terminal();
      StatusesAddUp(tasks[..n]);
    }
  }

  lemma {:induction false} OnePut(queues: map<Id, seq<Msg>>, e: Envelope)
    ensures PutAll(queues, [e]) == Put(queues, e)
  {
    assert [e][..0] == [];
    assert PutAll(queues, []) == queues;
  }

  lemma {:induction false} TwoPuts(queues: map<Id, seq<Msg>>, msg: Delegate)
    ensures var first, second := FailureMsg(msg.id, msg.ReturnTarget()), FailureMsg(msg.id, msg.from);
            PutAll(queues, FailureMail(msg))
            == if msg.ReturnTarget() == msg.from then Put(queues, first) else Put(Put(queues, first), second)
  {
    var first, second := FailureMsg(msg.id, msg.ReturnTarget()), FailureMsg(msg.id, msg.from);
    OnePut(queues, first);
    if msg.ReturnTarget() == msg.from {
      assert FailureMail(msg) == [first];
    } else {
      assert FailureMail(msg) == [first, second];
      assert [first, second][..1] == [first];
    }
  }

  /** Half-way through a sweep: the leases in `order` have expired, those in `rest` are still to expire. */
  ghost predicate Sweeping(start: DState, order: seq<Id>, rest: set<Id>, clock: Clock, now: DState) {
    && Consistent(now)
    && AllExpired(start, order, clock, now)
    && rest <= OverdueLeases(start, clock)
    && (forall t <- rest :: t in now.leases)
    && Enumerates(order, OverdueLeases(start, clock) - rest)
  }

  lemma SweepOn(start: DState, order: seq<Id>, rest: set<Id>, clock: Clock, before: DState, t: Id, after: DState)
    requires Sweeping(start, order, rest, clock, before) && t in rest && LeaseExpired(before, t, clock, after)
    ensures Sweeping(start, order + [t], rest - {t}, clock, after)
  {
    LeaseExpiredKeeps(before, t, clock, after);
    ExpiredOneMore(start, order, clock, before, t, after);
    ListedOneMore(order, OverdueLeases(start, clock), rest, t);
  }

  lemma {:induction false} ExpiredOneMore(s: DState, order: seq<Id>, clock: Clock, mid: DState, t: Id, s': DState)
    requires AllExpired(s, order, clock, mid) && LeaseExpired(mid, t, clock, s')
    ensures AllExpired(s, order + [t], clock, s')
  {
    assert (order + [t])[..|order|] == order;
  }

  lemma ListedOneMore(order: seq<Id>, overdue: set<Id>, rest: set<Id>, t: Id)
    requires Enumerates(order, overdue - rest) && t in rest && rest <= overdue
    ensures Enumerates(order + [t], overdue - (rest - {t}))
  {
    forall x
      ensures x in order + [t] <==> x in overdue - (rest - {t})
    {
      assert x in order <==> x in overdue - rest;
    }
  }
}
