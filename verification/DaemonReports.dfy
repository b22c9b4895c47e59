/**
 Who hears about a task: the worker's reports and the timeouts, from the messages
 queued back to the DELEGATE that the task goes back to.
 */
module DaemonReports {
  import opened DaemonAuthority
  import opened DaemonModel
  import opened DaemonProtocol
  import opened DaemonSweep
  import opened Wrappers

  /** A NOTIFY about a task, in the queue of one client. */
  function NotifyFor(client: Id, status: StatusWord, t: Id, sender: Id): Envelope {
    Envelope(client, Msg(NotifyMsg(status), t, sender, client))
  }

  /** Whom a DELEGATE names for the outcome: somebody else, or its sender. */
  function Named(msg: Delegate): Id {
    if msg.returnTo.Some? then msg.returnTo.value else msg.from
  }

  // ---- timeouts ------------------------------------------------------------

  /** Whom a lease names. */
  function NamedBy(lease: Lease): Id {
    if lease.returnTo.Some? then lease.returnTo.value else lease.originalFrom
  }

  lemma {:induction false} TimeoutAt(leases: map<Id, Lease>, order: seq<Id>, k: nat)
    requires k < |order| && forall j :: 0 <= j < |order| ==> order[j] in leases
    ensures |TimeoutMail(leases, order)| == |TimeoutLines(leases, order)| == |order|
    ensures var t, lease := order[k], leases[order[k]];
            && TimeoutMail(leases, order)[k] == NotifyFor(NamedBy(lease), SaysFailed, t, lease.assignedTo)
            && TimeoutLines(leases, order)[k] == JournalLine(NotifyEvent, t, lease.assignedTo, NamedBy(lease))
  {
    var n := |order| - 1;
    TimeoutsStep(leases, order);
    if n > 0 {
      TimeoutAt(leases, order[..n], if k < n then k else 0);
    }
  }

  /** What each entry of a stretch of mail and of the journal says about the lease visited there. */
  ghost predicate TellsOf(leases: map<Id, Lease>, order: seq<Id>, mail: seq<Envelope>, lines: seq<JournalLine>) {
    && |mail| == |lines| == |order|
    && forall k :: 0 <= k < |order| ==>
         && order[k] in leases
         && var t, lease := order[k], leases[order[k]];
         && mail[k] == NotifyFor(NamedBy(lease), SaysFailed, t, lease.assignedTo)
         && lines[k] == JournalLine(NotifyEvent, t, lease.assignedTo, NamedBy(lease))
  }

  lemma {:induction false} TimeoutsTell(leases: map<Id, Lease>, order: seq<Id>)
    requires forall j :: 0 <= j < |order| ==> order[j] in leases
    ensures TellsOf(leases, order, TimeoutMail(leases, order), TimeoutLines(leases, order))
  {
    forall k | 0 <= k < |order|
      ensures |TimeoutMail(leases, order)| == |TimeoutLines(leases, order)| == |order|
      ensures var t, lease := order[k], leases[order[k]];
              && TimeoutMail(leases, order)[k] == NotifyFor(NamedBy(lease), SaysFailed, t, lease.assignedTo)
              && TimeoutLines(leases, order)[k] == JournalLine(NotifyEvent, t, lease.assignedTo, NamedBy(lease))
    {
      TimeoutAt(leases, order, k);
    }
  }

  lemma SweepVisits(s: DState, order: seq<Id>, clock: Clock, s': DState)
    requires Swept(s, order, clock, s')
    ensures forall t :: t in order <==> t in s.leases && clock.instant > s.leases[t].deadline
    ensures forall j, k :: 0 <= j < k < |order| ==> order[j] != order[k]
  {
    assert Enumerates(order, OverdueLeases(s, clock));
  }

  /**
   A sweep visits the leases past their deadline, each once. For each it queues one
   failed NOTIFY for the client the lease names, and journals one line to that client.
   */
  lemma TimeoutsAreTold(s: DState, order: seq<Id>, clock: Clock, s': DState)
      returns (mail: seq<Envelope>, lines: seq<JournalLine>)
    requires Swept(s, order, clock, s')
    ensures forall t :: t in order <==> t in s.leases && clock.instant > s.leases[t].deadline
    ensures forall j, k :: 0 <= j < k < |order| ==> order[j] != order[k]
    ensures s'.sent == s.sent + mail && s'.journal == s.journal + lines
    ensures TellsOf(s.leases, order, mail, lines)
  {
    SweepMovesExactlyTheOverdue(s, order, clock, s');
    SweepVisits(s, order, clock, s');
    mail, lines := TimeoutMail(s.leases, order), TimeoutLines(s.leases, order);
    forall k | 0 <= k < |order|
      ensures order[k] in s.leases
    {
      assert order[k] in order;
    }
    TimeoutsTell(s.leases, order);
  }

  // ---- reports -------------------------------------------------------------

  /** The task a NOTIFY is about: the one its payload names, or else the one its id does. */
  function About(m: Notify): Id {
    if m.payloadTask.Some? then m.payloadTask.value else m.msgId
  }

  /** Where a report goes, and which worker the lease it settles names. */
  ghost predicate GoesTo(s: DState, m: Notify, target: Id, worker: Id) {
    var t := About(m);
    && (m.returnTo.Some? ==> target == m.returnTo.value)
    && (t in s.leases ==> worker == s.leases[t].assignedTo && (m.returnTo.None? ==> target == s.leases[t].originalFrom))
    && (t !in s.leases && t in s.expired ==>
          worker == s.expired[t].assignedTo && (m.returnTo.None? ==> target == s.expired[t].originalFrom))
    && (t !in s.leases && t !in s.expired ==> worker == m.from && (m.returnTo.None? ==> target == m.from))
  }

  ghost predicate StatusSays(status: TaskStatus, word: StatusWord) {
    && (status.Completed? <==> word.SaysCompleted?) && (status.Failed? <==> word.SaysFailed?)
    && (status.Cancelled? <==> word.SaysCancelled?) && (status.Pending? <==> word.SaysPending?)
  }

  /** The record after a report: the one found, with one more notice, or a fresh one for the worker. */
  ghost predicate RecordAfter(found: Option<Task>, t: Id, worker: Id, word: StatusWord, utc: Time, task: Task) {
    && task.id == t && StatusSays(task.status, word) && task.lastActivity == utc
    && (found.Some? ==> && task.delegatedTo == found.value.delegatedTo && task.createdAt == found.value.createdAt
                        && task.notifications == found.value.notifications + [Notice(utc, word)])
    && (found.None? ==> && task.delegatedTo == worker && task.createdAt == utc
                        && task.notifications == [Notice(utc, word)])
  }

  ghost predicate IsFound(active: map<Id, Task>, completed: map<Id, Task>, t: Id, found: Option<Task>) {
    && (t in active ==> found == Some(active[t]))
    && (t !in active && t in completed ==> found == Some(completed[t]))
    && (t !in active && t !in completed ==> found == None)
  }

  /** A final record replaces what either store had, within the limit; another one goes back to the active store. */
  ghost predicate FiledAgain(active: map<Id, Task>, completed: map<Id, Task>, t: Id, task: Task,
                             active': map<Id, Task>, completed': map<Id, Task>)
  {
    var rest := if t in active then completed else completed - {t};
    if task.status.Completed? || task.status.Failed? || task.status.Cancelled? then
      active' == active - {t} && Pruned(rest[t := task], completed')
    else
      active' == (active - {t})[t := task] && completed' == rest
  }

  /** One message, to one client, and one journal line to the same. */
  lemma ReportsAreTold(s: DState, m: Notify, clock: Clock, s': DState) returns (target: Id, worker: Id)
    requires Notified(s, m, clock, s')
    ensures GoesTo(s, m, target, worker)
    ensures s'.sent == s.sent + [NotifyFor(target, m.status, About(m), ORCHESTRATOR)]
    ensures s'.journal == s.journal + [JournalLine(NotifyEvent, About(m), m.from, target)]
  {
    var t := About(m);
    assert m.TaskId() == t;
    target := if m.returnTo.Some? then m.returnTo.value
              else if t in s.leases then s.leases[t].originalFrom
              else if t in s.expired then s.expired[t].originalFrom
              else m.from;
    worker := if t in s.leases then s.leases[t].assignedTo
              else if t in s.expired then s.expired[t].assignedTo
              else m.from;
    assert NotifyTarget(s, m) == target;
  }

  lemma RecordedAfter(active: map<Id, Task>, completed: map<Id, Task>, t: Id, worker: Id, word: StatusWord, utc: Time)
      returns (found: Option<Task>)
    requires KeyedById(active) && KeyedById(completed)
    ensures IsFound(active, completed, t, found)
    ensures RecordAfter(found, t, worker, word, utc, Recorded(FoundTask(active, completed, t), t, worker, word, utc))
  {
    found := FoundTask(active, completed, t);
  }

  lemma FiledIsFiledAgain(active: map<Id, Task>, completed: map<Id, Task>, t: Id, task: Task,
                          active': map<Id, Task>, completed': map<Id, Task>)
    requires Filed(Drop(active, t), CompletedWithout(active, completed, t), task, active', completed') && task.id == t
    ensures FiledAgain(active, completed, t, task, active', completed')
  {
  }

  /** The record of the task gains the report and is filed by the status it names. */
  lemma ReportsAreFiled(s: DState, m: Notify, clock: Clock, s': DState, target: Id, worker: Id)
      returns (found: Option<Task>, task: Task)
    requires Consistent(s) && Notified(s, m, clock, s') && GoesTo(s, m, target, worker)
    ensures IsFound(s.active, s.completed, About(m), found)
    ensures RecordAfter(found, About(m), worker, m.status, clock.utc, task)
    ensures FiledAgain(s.active, s.completed, About(m), task, s'.active, s'.completed)
  {
    var t := About(m);
    assert m.TaskId() == t;
    task := NotifyTask(s, m, clock);
    assert task == Recorded(FoundTask(s.active, s.completed, t), t, worker, m.status, clock.utc);
    found := RecordedAfter(s.active, s.completed, t, worker, m.status, clock.utc);
    FiledIsFiledAgain(s.active, s.completed, t, task, s'.active, s'.completed);
  }

  /** And likewise with the record of a task whose lease expires, which is failed. */
  lemma ExpiriesAreFiled(s: DState, t: Id, clock: Clock, s': DState) returns (found: Option<Task>, task: Task)
    requires KeyedById(s.active) && KeyedById(s.completed) && LeaseExpired(s, t, clock, s')
    ensures IsFound(s.active, s.completed, t, found)
    ensures RecordAfter(found, t, s.leases[t].assignedTo, SaysFailed, clock.utc, task)
    ensures FiledAgain(s.active, s.completed, t, task, s'.active, s'.completed)
  {
    task := ExpiredTask(s, t, clock);
    found := RecordedAfter(s.active, s.completed, t, s.leases[t].assignedTo, SaysFailed, clock.utc);
    FiledIsFiledAgain(s.active, s.completed, t, task, s'.active, s'.completed);
  }

  // ---- back to the DELEGATE ------------------------------------------------

  ghost predicate OnFile(d: DState, t: Id, lease: Lease) {
    (t in d.leases && d.leases[t] == lease) || (t in d.expired && d.expired[t] == lease)
  }

  lemma WhereAsked(cfg: Config, states: seq<Sys>, labels: seq<Label>, j: nat, id: nat, msg: Delegate) returns (i: nat)
    requires Authorised(cfg, states, labels, j, id, msg)
    ensures i < j && i < |labels| && labels[i].DelegateIn? && labels[i].msg == msg
  {
    var k :| 0 <= k < j && AuthorisedAt(cfg, states, labels, k, id, msg);
    i := k;
    if labels[k].Decide? {
      i :| 0 <= i < k && Holds(cfg, labels, i, labels[k].approvalId, msg);
    }
  }

  lemma WhereCreated(cfg: Config, states: seq<Sys>, labels: seq<Label>, n: nat, t: Id, lease: Lease) returns (j: nat)
    requires Run(cfg, states, labels) && n < |states| && OnFile(states[n].d, t, lease)
    ensures j < n && Creates(states, labels, j, lease) && lease.taskId == t
  {
    EveryReachableStateIsConsistent(cfg, states, labels, n);
    EveryLeaseOnFileWasCreated(cfg, states, labels, n);
    assert Created(states, labels, n, lease);
    j :| 0 <= j < n && Creates(states, labels, j, lease);
  }

  /** Every lease on file goes back to an earlier DELEGATE, in a later section of whose handler it was created. */
  lemma LeasesGoBack(cfg: Config, states: seq<Sys>, labels: seq<Label>, n: nat, t: Id, lease: Lease)
      returns (i: nat, j: nat)
    requires Run(cfg, states, labels) && n < |states| && OnFile(states[n].d, t, lease)
    ensures i < j < n && labels[i].DelegateIn? && labels[j].CreateLease?
    ensures labels[i].msg.id == t && IsFor(lease, labels[i].msg, labels[j].clock)
  {
    j := WhereCreated(cfg, states, labels, n, t, lease);
    EveryLeaseIsAuthorised(cfg, states, labels, j);
    i := WhereAsked(cfg, states, labels, j, labels[j].call, states[j].calls[labels[j].call].Origin());
  }

  /**
   Over any run, a timeout is told to the client the DELEGATE named, by the sweep that
   finds its lease more than fifteen minutes old, and journaled as such.
   */
  lemma TimeoutsReachTheDelegator(cfg: Config, states: seq<Sys>, labels: seq<Label>, n: nat, k: nat)
      returns (i: nat, j: nat)
    requires Run(cfg, states, labels) && n < |labels| && labels[n].Sweep? && k < |labels[n].order|
    ensures i < j < n && labels[i].DelegateIn? && labels[j].CreateLease?
    ensures var msg, d, d' := labels[i].msg, states[n].d, states[n + 1].d;
            && msg.id == labels[n].order[k]
            && labels[n].clock.instant > labels[j].clock.instant + 900_000_000_000
            && |d'.sent| == |d.sent| + |labels[n].order| && |d'.journal| == |d.journal| + |labels[n].order|
            && d'.sent[|d.sent| + k] == NotifyFor(Named(msg), SaysFailed, msg.id, msg.to)
            && d'.journal[|d.journal| + k] == JournalLine(NotifyEvent, msg.id, msg.to, Named(msg))
  {
    var d, d' := states[n].d, states[n + 1].d;
    assert Step(cfg, states[n], labels[n], states[n + 1]);
    var mail, lines := TimeoutsAreTold(d, labels[n].order, labels[n].clock, d');
    var t := labels[n].order[k];
    assert t in labels[n].order;
    i, j := LeasesGoBack(cfg, states, labels, n, t, d.leases[t]);
  }

  /**
   Over any run, the report that settles a lease goes to the client the NOTIFY names
   and otherwise to the sender of the DELEGATE, whomever that DELEGATE names; so it
   reaches the client the DELEGATE names only in these cases.
   */
  lemma ReportsReachTheDelegator(cfg: Config, states: seq<Sys>, labels: seq<Label>, n: nat)
      returns (i: nat, j: nat, target: Id)
    requires Run(cfg, states, labels) && n < |labels| && labels[n].NotifyIn? && !labels[n].m.status.SaysAck?
    requires About(labels[n].m) in states[n].d.leases || About(labels[n].m) in states[n].d.expired
    ensures i < j < n && labels[i].DelegateIn? && labels[j].CreateLease? && labels[i].msg.id == About(labels[n].m)
    ensures var m, msg, d, d' := labels[n].m, labels[i].msg, states[n].d, states[n + 1].d;
            && target == (if m.returnTo.Some? then m.returnTo.value else msg.from)
            && d'.sent == d.sent + [NotifyFor(target, m.status, msg.id, ORCHESTRATOR)]
            && d'.journal == d.journal + [JournalLine(NotifyEvent, msg.id, m.from, target)]
    ensures var m, msg := labels[n].m, labels[i].msg;
            target == Named(msg) <==>
            m.returnTo == Some(Named(msg)) || (m.returnTo.None? && (msg.returnTo.None? || msg.returnTo.value == msg.from))
  {
    var m, d, d' := labels[n].m, states[n].d, states[n + 1].d;
    var t := About(m);
    assert Step(cfg, states[n], labels[n], states[n + 1]);
    var worker;
    target, worker := ReportsAreTold(d, m, labels[n].clock, d');
    i, j := LeasesGoBack(cfg, states, labels, n, t, if t in d.leases then d.leases[t] else d.expired[t]);
  }
}
