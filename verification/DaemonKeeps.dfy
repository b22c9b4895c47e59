/** Every section of the daemon keeps the state consistent. */
module DaemonKeeps {
  import opened Wrappers
  import opened DaemonModel

  lemma SmallerMap<V>(big: map<Id, V>, small: map<Id, V>)
    requires forall t <- small :: t in big
    ensures |small| <= |big|
  {
    var a, b := small.Keys, big.Keys;
    assert b == a + (b - a);
  }

  lemma RemovedOne<V>(m: map<Id, V>, t: Id)
    ensures |m| == |Drop(m, t)| + if t in m then 1 else 0
  {
    if t in m {
      assert m == Drop(m, t)[t := m[t]];
    } else {
      assert Drop(m, t) == m;
    }
  }

  /** Filing a task with a notice on it keeps both stores in order. */
  lemma FiledKeeps(active: map<Id, Task>, completed: map<Id, Task>, leases: map<Id, Lease>, task: Task,
                   active': map<Id, Task>, completed': map<Id, Task>)
    requires ActiveOpen(active, leases) && CompletedClosed(completed)
    requires Filed(active, completed, task, active', completed') && task.notifications != []
    ensures ActiveOpen(active', leases) && CompletedClosed(completed')
    ensures forall t <- active :: t in active'
  {
  }

  lemma CompletedWithoutKeeps(active: map<Id, Task>, completed: map<Id, Task>, t: Id)
    requires CompletedClosed(completed)
    ensures CompletedClosed(CompletedWithout(active, completed, t))
  {
    RemovedOne(completed, t);
  }

  lemma FailureRecordedKeeps(s: DState, journalId: Id, author: Id, msg: Delegate, clock: Clock, s': DState)
    requires Consistent(s) && FailureRecorded(s, journalId, author, msg, clock, s')
    ensures Consistent(s')
  {
    FiledKeeps(s.active, s.completed, s.leases, Recorded(None, msg.id, msg.to, SaysFailed, clock.utc),
               s'.active, s'.completed);
  }

  lemma LeaseCreatedKeeps(s: DState, msg: Delegate, notifyWorker: bool, clock: Clock, s': DState)
    requires Consistent(s) && LeaseCreated(s, msg, notifyWorker, clock, s')
    ensures Consistent(s')
  {
  }

  /** A task and its lease leave together. */
  lemma TakenOutTogether(active: map<Id, Task>, leases: map<Id, Lease>, t: Id)
    requires ActiveOpen(active, leases) && LeasesKeyed(leases) && forall u <- leases :: u in active
    ensures ActiveOpen(Drop(active, t), Drop(leases, t)) && LeasesKeyed(Drop(leases, t))
    ensures forall u <- Drop(leases, t) :: u in Drop(active, t)
  {
  }

  /** A task that is taken out with its lease and filed again leaves no lease without a record. */
  lemma RefiledKeeps(active: map<Id, Task>, completed: map<Id, Task>, leases: map<Id, Lease>, t: Id, task: Task,
                     active': map<Id, Task>, completed': map<Id, Task>)
    requires ActiveOpen(active, leases) && LeasesKeyed(leases) && (forall u <- leases :: u in active)
    requires CompletedClosed(completed) && task.notifications != []
    requires Filed(Drop(active, t), CompletedWithout(active, completed, t), task, active', completed')
    ensures ActiveOpen(active', Drop(leases, t)) && LeasesKeyed(Drop(leases, t)) && CompletedClosed(completed')
    ensures forall u <- Drop(leases, t) :: u in active'
  {
    TakenOutTogether(active, leases, t);
    CompletedWithoutKeeps(active, completed, t);
    FiledKeeps(Drop(active, t), CompletedWithout(active, completed, t), Drop(leases, t), task, active', completed');
  }

  lemma NotifiedKeeps(s: DState, m: Notify, clock: Clock, s': DState)
    requires Consistent(s) && Notified(s, m, clock, s')
    ensures Consistent(s')
  {
    RefiledKeeps(s.active, s.completed, s.leases, m.TaskId(), NotifyTask(s, m, clock), s'.active, s'.completed);
  }

  lemma ExpiryKeepsTasks(s: DState, t: Id, clock: Clock, s': DState)
    requires Consistent(s) && LeaseExpired(s, t, clock, s')
    ensures ActiveOpen(s'.active, s'.leases) && LeasesKeyed(s'.leases) && CompletedClosed(s'.completed)
    ensures forall u <- s'.leases :: u in s'.active
  {
    RefiledKeeps(s.active, s.completed, s.leases, t, ExpiredTask(s, t, clock), s'.active, s'.completed);
  }

  lemma ExpiryKeepsTheRest(s: DState, t: Id, clock: Clock, s': DState)
    requires Consistent(s) && LeaseExpired(s, t, clock, s')
    ensures LeasesKeyed(s'.expired) && ApprovalsKeyed(s'.approvals)
  {
  }

  lemma LeaseExpiredKeeps(s: DState, t: Id, clock: Clock, s': DState)
    requires Consistent(s) && LeaseExpired(s, t, clock, s')
    ensures Consistent(s')
  {
    ExpiryKeepsTasks(s, t, clock, s');
    ExpiryKeepsTheRest(s, t, clock, s');
  }

  /** The state before the last of several expiries. */
  lemma LastExpiry(s: DState, order: seq<Id>, clock: Clock, s': DState) returns (mid: DState)
    requires order != [] && AllExpired(s, order, clock, s')
    ensures var n := |order| - 1;
            AllExpired(s, order[..n], clock, mid) && LeaseExpired(mid, order[n], clock, s')
  {
    var n := |order| - 1;
    mid :| AllExpired(s, order[..n], clock, mid) && LeaseExpired(mid, order[n], clock, s');
  }

  /** The state between the two halves of a sweep. */
  lemma SweptInTwo(s: DState, order: seq<Id>, clock: Clock, s': DState) returns (mid: DState)
    requires Swept(s, order, clock, s')
    ensures AllExpired(s, order, clock, mid) && DeadDropped(mid, clock, s')
  {
    mid :| AllExpired(s, order, clock, mid) && DeadDropped(mid, clock, s');
  }

  lemma {:induction false} AllExpiredKeeps(s: DState, order: seq<Id>, clock: Clock, s': DState)
    requires Consistent(s) && AllExpired(s, order, clock, s')
    ensures Consistent(s')
    decreases |order|
  {
    if order != [] {
      var n := |order| - 1;
      var mid := LastExpiry(s, order, clock, s');
      AllExpiredKeeps(s, order[..n], clock, mid);
      LeaseExpiredKeeps(mid, order[n], clock, s');
    }
  }

  lemma SweptKeeps(s: DState, order: seq<Id>, clock: Clock, s': DState)
    requires Consistent(s) && Swept(s, order, clock, s')
    ensures Consistent(s')
  {
    var mid := SweptInTwo(s, order, clock, s');
    AllExpiredKeeps(s, order, clock, mid);
  }

  lemma {:induction false} SweepLeavesApprovals(d: DState, order: seq<Id>, clock: Clock, d': DState)
    requires AllExpired(d, order, clock, d')
    ensures d'.approvals == d.approvals
    decreases |order|
  {
    if order != [] {
      var n := |order| - 1;
      var mid := LastExpiry(d, order, clock, d');
      SweepLeavesApprovals(d, order[..n], clock, mid);
    }
  }
}
