/** What one clock sweep does, exactly, however the hash map orders the overdue leases. */
module DaemonSweep {
  import opened DaemonModel
  import opened DaemonKeeps
  import opened DaemonQueues

  ghost function Members(order: seq<Id>): set<Id> {
    if order == [] then {} else Members(order[..|order| - 1]) + {order[|order| - 1]}
  }

  lemma {:induction false} MembersOf(order: seq<Id>, items: set<Id>)
    requires Enumerates(order, items)
    ensures Members(order) == items && |order| == |items|
    decreases |order|
  {
    if order == [] {
      assert forall x <- items :: x in order;
      assert items == {};
    } else {
      var n := |order| - 1;
      forall x
        ensures x in order[..n] <==> x in items - {order[n]}
      {
        assert x in order <==> x in items;
      }
      MembersOf(order[..n], items - {order[n]});
    }
  }

  /** The map without the given keys. */
  ghost function Without<V>(m: map<Id, V>, keys: set<Id>): map<Id, V> {
    m - keys
  }

  lemma WithoutOneMore<V>(m: map<Id, V>, keys: set<Id>, t: Id)
    ensures Drop(Without(m, keys), t) == Without(m, keys + {t})
    ensures Without(m, {}) == m
  {
  }

  // ---- leases --------------------------------------------------------------

  ghost predicate LeasesMoved(leases: map<Id, Lease>, expired: map<Id, Lease>, moved: set<Id>,
                              leases': map<Id, Lease>, expired': map<Id, Lease>)
  {
    && leases' == Without(leases, moved)
    && (forall t <- expired' :: t in moved || t in expired)
    && (forall t <- moved :: t in leases && t in expired' && expired'[t] == leases[t])
    && (forall t <- expired :: t !in moved ==> t in expired' && expired'[t] == expired[t])
  }

  lemma LeaseMovedOn(leases: map<Id, Lease>, expired: map<Id, Lease>, moved: set<Id>, t: Id,
                     leases1: map<Id, Lease>, expired1: map<Id, Lease>)
    requires LeasesMoved(leases, expired, moved, leases1, expired1) && t in leases1
    ensures LeasesMoved(leases, expired, moved + {t}, Drop(leases1, t), expired1[t := leases1[t]])
  {
    WithoutOneMore(leases, moved, t);
  }

  lemma {:induction false} AllExpiredLeases(s: DState, order: seq<Id>, clock: Clock, s': DState)
    requires AllExpired(s, order, clock, s')
    ensures LeasesMoved(s.leases, s.expired, Members(order), s'.leases, s'.expired) && s'.clients == s.clients
    decreases |order|
  {
    if order == [] {
      assert Without(s.leases, {}) == s.leases;
    } else {
      var n := |order| - 1;
      var mid := LastExpiry(s, order, clock, s');
      AllExpiredLeases(s, order[..n], clock, mid);
      LeaseMovedOn(s.leases, s.expired, Members(order[..n]), order[n], mid.leases, mid.expired);
    }
  }

  // ---- mail and journal ----------------------------------------------------

  /** One message and one journal line for each lease, in the order of the sweep. */
  ghost function TimeoutMail(leases: map<Id, Lease>, order: seq<Id>): seq<Envelope> {
    if order == [] then []
    else
      var t := order[|order| - 1];
      TimeoutMail(leases, order[..|order| - 1]) + if t in leases then [TimeoutMsg(t, leases[t])] else []
  }

  ghost function TimeoutLines(leases: map<Id, Lease>, order: seq<Id>): seq<JournalLine> {
    if order == [] then []
    else
      var t := order[|order| - 1];
      TimeoutLines(leases, order[..|order| - 1])
      + if t in leases then [TimeoutLine(t, leases[t])] else []
  }

  lemma TimeoutsStep(leases: map<Id, Lease>, order: seq<Id>)
    requires order != [] && order[|order| - 1] in leases
    ensures var earlier, t := order[..|order| - 1], order[|order| - 1];
            && TimeoutMail(leases, order) == TimeoutMail(leases, earlier) + [TimeoutMsg(t, leases[t])]
            && TimeoutLines(leases, order)
               == TimeoutLines(leases, earlier) + [TimeoutLine(t, leases[t])]
  {
  }

  lemma ExpiryMail(s: DState, t: Id, clock: Clock, s': DState)
    requires LeaseExpired(s, t, clock, s')
    ensures Mailed(s, [TimeoutMsg(t, s.leases[t])], s')
    ensures s'.journal == s.journal + [TimeoutLine(t, s.leases[t])]
  {
  }

  lemma {:induction false} AllExpiredMail(s: DState, order: seq<Id>, clock: Clock, s': DState)
    requires AllExpired(s, order, clock, s')
    ensures Mailed(s, TimeoutMail(s.leases, order), s')
    decreases |order|
  {
    if order == [] {
      assert s.sent + [] == s.sent;
    } else {
      var n := |order| - 1;
      var mid := LastExpiry(s, order, clock, s');
      AllExpiredMail(s, order[..n], clock, mid);
      AllExpiredLeases(s, order[..n], clock, mid);
      ExpiryMail(mid, order[n], clock, s');
      TimeoutsStep(s.leases, order);
      MailedTwice(s, TimeoutMail(s.leases, order[..n]), mid, TimeoutMsg(order[n], s.leases[order[n]]), s');
    }
  }

  lemma {:induction false} AllExpiredLines(s: DState, order: seq<Id>, clock: Clock, s': DState)
    requires AllExpired(s, order, clock, s')
    ensures s'.journal == s.journal + TimeoutLines(s.leases, order)
    decreases |order|
  {
    if order == [] {
      assert s.journal + [] == s.journal;
    } else {
      var n := |order| - 1;
      var mid := LastExpiry(s, order, clock, s');
      AllExpiredLines(s, order[..n], clock, mid);
      AllExpiredLeases(s, order[..n], clock, mid);
      ExpiryMail(mid, order[n], clock, s');
      TimeoutsStep(s.leases, order);
      AppendTwice(s.journal, TimeoutLines(s.leases, order[..n]), TimeoutLine(order[n], s.leases[order[n]]));
    }
  }

  lemma AppendTwice(log: seq<JournalLine>, lines: seq<JournalLine>, last: JournalLine)
    ensures log + (lines + [last]) == (log + lines) + [last]
  {
  }

  lemma {:induction false} OneEach(leases: map<Id, Lease>, order: seq<Id>)
    requires forall t <- Members(order) :: t in leases
    ensures |TimeoutMail(leases, order)| == |TimeoutLines(leases, order)| == |order|
    decreases |order|
  {
    if order != [] {
      OneEach(leases, order[..|order| - 1]);
    }
  }

  lemma MailedTwice(s: DState, mail: seq<Envelope>, mid: DState, last: Envelope, s': DState)
    requires Mailed(s, mail, mid) && Mailed(mid, [last], s')
    ensures Mailed(s, mail + [last], s')
  {
    PutLast(s.queues, mail, last);
    PutLast(mid.queues, [], last);
    assert [] + [last] == [last];
  }

  lemma {:induction false} PutLast(queues: map<Id, seq<Msg>>, mail: seq<Envelope>, last: Envelope)
    ensures PutAll(queues, mail + [last]) == Put(PutAll(queues, mail), last)
  {
    assert (mail + [last])[..|mail|] == mail;
  }

  // ---- tasks ---------------------------------------------------------------

  /** The record of an overdue task once it has been marked failed. */
  ghost function FailedRecord(task: Task, clock: Clock): Task {
    task.(status := Failed, lastActivity := clock.utc,
          notifications := task.notifications + [Notice(clock.utc, SaysFailed)])
  }

  /** The completed store as it would be were there no limit. */
  ghost function Unpruned(s: DState, order: seq<Id>, clock: Clock): map<Id, Task> {
    if order == [] then s.completed
    else
      var t, full := order[|order| - 1], Unpruned(s, order[..|order| - 1], clock);
      if t in s.active then full[t := FailedRecord(s.active[t], clock)] else full
  }

  lemma {:induction false} UnprunedAt(s: DState, order: seq<Id>, clock: Clock)
    requires forall t <- Members(order) :: t in s.active
    ensures forall t :: t in Unpruned(s, order, clock) <==> t in s.completed || t in Members(order)
    ensures forall t <- Unpruned(s, order, clock) ::
              Unpruned(s, order, clock)[t] == if t in Members(order) then FailedRecord(s.active[t], clock)
                                              else s.completed[t]
    decreases |order|
  {
    if order != [] {
      UnprunedAt(s, order[..|order| - 1], clock);
    }
  }

  lemma ExpiryEndsActivity(s: DState, t: Id, clock: Clock, s': DState)
    requires LeaseExpired(s, t, clock, s')
    ensures s'.active == Drop(s.active, t)
  {
    assert ExpiredTask(s, t, clock).status == Failed;
  }

  lemma {:induction false} AllExpiredActive(s: DState, order: seq<Id>, clock: Clock, s': DState)
    requires AllExpired(s, order, clock, s')
    ensures s'.active == Without(s.active, Members(order))
    decreases |order|
  {
    if order == [] {
      WithoutOneMore(s.active, {}, 0);
    } else {
      var n := |order| - 1;
      var mid := LastExpiry(s, order, clock, s');
      AllExpiredActive(s, order[..n], clock, mid);
      ExpiryEndsActivity(mid, order[n], clock, s');
      WithoutOneMore(s.active, Members(order[..n]), order[n]);
    }
  }

  /** The last expiry files the failed record of a task whose record is still the one it had at the start. */
  lemma LastExpiredTask(s: DState, done: set<Id>, t: Id, clock: Clock, mid: DState, s': DState)
    requires KeyedById(s.active) && Consistent(mid)
    requires mid.active == Without(s.active, done) && LeaseExpired(mid, t, clock, s')
    ensures t in s.active && Pruned(mid.completed[t := FailedRecord(s.active[t], clock)], s'.completed)
  {
    assert t in mid.active;
    assert ExpiredTask(mid, t, clock) == FailedRecord(s.active[t], clock);
  }

  ghost predicate PartOf(small: map<Id, Task>, big: map<Id, Task>) {
    forall t <- small :: t in big && small[t] == big[t]
  }

  lemma PartOfStep(small: map<Id, Task>, big: map<Id, Task>, t: Id, task: Task, small': map<Id, Task>)
    requires PartOf(small, big) && Pruned(small[t := task], small')
    ensures PartOf(small', big[t := task])
  {
  }

  lemma UnprunedStep(s: DState, order: seq<Id>, clock: Clock)
    requires order != [] && order[|order| - 1] in s.active
    ensures var earlier, t := order[..|order| - 1], order[|order| - 1];
            Unpruned(s, order, clock) == Unpruned(s, earlier, clock)[t := FailedRecord(s.active[t], clock)]
  {
  }

  lemma {:induction false} AllExpiredCompleted(s: DState, order: seq<Id>, clock: Clock, s': DState)
    requires Consistent(s) && AllExpired(s, order, clock, s')
    ensures PartOf(s'.completed, Unpruned(s, order, clock))
    decreases |order|
  {
    if order != [] {
      var n := |order| - 1;
      var mid := LastExpiry(s, order, clock, s');
      AllExpiredKeeps(s, order[..n], clock, mid);
      AllExpiredCompleted(s, order[..n], clock, mid);
      AllExpiredActive(s, order[..n], clock, mid);
      LastExpiredTask(s, Members(order[..n]), order[n], clock, mid, s');
      UnprunedStep(s, order, clock);
      PartOfStep(mid.completed, Unpruned(s, order[..n], clock), order[n], FailedRecord(s.active[order[n]], clock),
                 s'.completed);
    }
  }

  /** Up to a thousand records are all kept; of more, a thousand, and those the most recent ones. */
  lemma PruningKeepsTheMostRecent(before: map<Id, Task>, after: map<Id, Task>)
    requires Pruned(before, after)
    ensures |before| <= 1000 ==> after == before
    ensures |before| > 1000 ==> |after| == 1000
    ensures forall gone, kept :: gone in before && gone !in after && kept in after ==>
              kept in before && after[kept] == before[kept] && before[gone].lastActivity <= before[kept].lastActivity
  {
    if |before| <= 1000 {
      SameSize(before, after);
    }
  }

  /** Pruning after every insertion leaves what pruning once at the end would leave. */
  lemma PrunedTwice(full: map<Id, Task>, kept: map<Id, Task>, t: Id, task: Task, kept': map<Id, Task>)
    requires Pruned(full, kept) && t !in full && Pruned(kept[t := task], kept')
    ensures Pruned(full[t := task], kept')
  {
    var full' := full[t := task];
    if |full| <= MAX_COMPLETED_TASKS {
      SameSize(full, kept);
    } else {
      forall gone, k | gone in full' && gone !in kept' && k in kept'
        ensures full'[gone].lastActivity <= full'[k].lastActivity
      {
        if gone !in kept[t := task] && k == t {
          var x := SomethingLeft(kept, t, task, kept');
          assert full[gone].lastActivity <= full[x].lastActivity;
        }
      }
    }
  }

  /** When a full store takes in a task and keeps it, something else has to leave, and is no more recent. */
  lemma SomethingLeft(kept: map<Id, Task>, t: Id, task: Task, kept': map<Id, Task>) returns (x: Id)
    requires |kept| == MAX_COMPLETED_TASKS && t !in kept && Pruned(kept[t := task], kept') && t in kept'
    ensures x in kept && kept[x].lastActivity <= task.lastActivity
  {
    if forall y <- kept :: y in kept' {
      SmallerMap(kept', kept[t := task]);
      assert false;
    }
    x :| x in kept && x !in kept';
  }

  lemma SameSize(big: map<Id, Task>, small: map<Id, Task>)
    requires PartOf(small, big) && |small| == |big|
    ensures small == big
  {
    var rest := big.Keys - small.Keys;
    assert big.Keys == small.Keys + rest;
    assert |rest| == 0;
  }

  /** The task that expires last has not expired before, nor was it completed: it is new to the store. */
  lemma LastIsNew(s: DState, order: seq<Id>, clock: Clock, mid: DState, s': DState)
    requires Consistent(s) && order != [] && order[|order| - 1] !in s.completed
    requires AllExpired(s, order[..|order| - 1], clock, mid) && LeaseExpired(mid, order[|order| - 1], clock, s')
    ensures var n := |order| - 1;
            && order[n] in s.active && order[n] !in Unpruned(s, order[..n], clock)
            && Pruned(mid.completed[order[n] := FailedRecord(s.active[order[n]], clock)], s'.completed)
  {
    var n := |order| - 1;
    AllExpiredKeeps(s, order[..n], clock, mid);
    AllExpiredActive(s, order[..n], clock, mid);
    LastExpiredTask(s, Members(order[..n]), order[n], clock, mid, s');
    MembersAreActive(s, order[..n], clock, mid);
    UnprunedAt(s, order[..n], clock);
    assert order[n] in mid.active && order[n] !in Members(order[..n]);
  }

  /** If no overdue task is also filed as completed, the sweep prunes as if it had pruned once. */
  lemma {:induction false} AllExpiredPruned(s: DState, order: seq<Id>, clock: Clock, s': DState)
    requires Consistent(s) && AllExpired(s, order, clock, s')
    requires forall t <- Members(order) :: t !in s.completed
    ensures Pruned(Unpruned(s, order, clock), s'.completed)
    decreases |order|
  {
    if order != [] {
      var n := |order| - 1;
      var mid := LastExpiry(s, order, clock, s');
      AllExpiredPruned(s, order[..n], clock, mid);
      LastIsNew(s, order, clock, mid, s');
      UnprunedStep(s, order, clock);
      PrunedTwice(Unpruned(s, order[..n], clock), mid.completed, order[n],
                  FailedRecord(s.active[order[n]], clock), s'.completed);
    }
  }

  lemma {:induction false} MembersAreActive(s: DState, order: seq<Id>, clock: Clock, s': DState)
    requires Consistent(s) && AllExpired(s, order, clock, s')
    ensures forall t <- Members(order) :: t in s.leases && t in s.active
  {
    AllExpiredLeases(s, order, clock, s');
  }

  // ---- the whole sweep -----------------------------------------------------

  /**
   The sweep moves exactly the overdue leases to the expired ones, takes their
   tasks out of the active store, adds one journal line and one message for each,
   and keeps every queue except those of clients it drops as dead.
   */
  lemma {:induction false} SweepMovesExactlyTheOverdue(s: DState, order: seq<Id>, clock: Clock, s': DState)
    requires Swept(s, order, clock, s')
    ensures var overdue, mail := OverdueLeases(s, clock), TimeoutMail(s.leases, order);
            && LeasesMoved(s.leases, s.expired, overdue, s'.leases, s'.expired)
            && s'.active == Without(s.active, overdue)
            && s'.journal == s.journal + TimeoutLines(s.leases, order)
            && s'.sent == s.sent + mail
            && |mail| == |TimeoutLines(s.leases, order)| == |overdue|
            && (forall c :: QueueOf(s'.queues, c) == if c in DeadClients(s, clock) then []
                                                     else QueueOf(s.queues, c) + To(mail, c))
            && s'.clients == Without(s.clients, DeadClients(s, clock))
  {
    var mid := SweptInTwo(s, order, clock, s');
    MembersOf(order, OverdueLeases(s, clock));
    AllExpiredLeases(s, order, clock, mid);
    AllExpiredMail(s, order, clock, mid);
    AllExpiredLines(s, order, clock, mid);
    AllExpiredActive(s, order, clock, mid);
    OneEach(s.leases, order);
    DroppedQueues(s, TimeoutMail(s.leases, order), mid, clock, s');
  }

  lemma {:induction false} DroppedQueues(s: DState, mail: seq<Envelope>, mid: DState, clock: Clock, s': DState)
    requires Mailed(s, mail, mid) && mid.clients == s.clients && DeadDropped(mid, clock, s')
    ensures forall c :: QueueOf(s'.queues, c) == if c in DeadClients(s, clock) then []
                                                 else QueueOf(s.queues, c) + To(mail, c)
    ensures s'.clients == Without(s.clients, DeadClients(s, clock))
  {
    assert DeadClients(mid, clock) == DeadClients(s, clock);
    forall c
      ensures QueueOf(s'.queues, c) == if c in DeadClients(s, clock) then [] else QueueOf(s.queues, c) + To(mail, c)
    {
      PutAllQueue(s.queues, mail, c);
    }
  }

  lemma {:induction false} ExpiredTasksFail(s: DState, order: seq<Id>, clock: Clock, s': DState)
    requires Consistent(s) && AllExpired(s, order, clock, s')
    ensures forall t <- Members(order) ::
              t in s.active && t !in s'.active
              && (t in s'.completed ==> s'.completed[t] == FailedRecord(s.active[t], clock))
    ensures forall t <- s'.completed :: t !in Members(order) ==> t in s.completed && s'.completed[t] == s.completed[t]
  {
    MembersAreActive(s, order, clock, s');
    AllExpiredActive(s, order, clock, s');
    AllExpiredCompleted(s, order, clock, s');
    UnprunedAt(s, order, clock);
  }

  /**
   Every overdue task ends up failed, with the timeout noticed last; what the limit
   of the completed store then costs is the least recent records, and no more.
   */
  lemma {:induction false} SweepFailsTheOverdue(s: DState, order: seq<Id>, clock: Clock, s': DState)
    requires Consistent(s) && Swept(s, order, clock, s')
    ensures forall t <- OverdueLeases(s, clock) ::
              t in s.active && t !in s'.active
              && (t in s'.completed ==> s'.completed[t] == FailedRecord(s.active[t], clock))
    ensures forall t <- s'.completed :: t !in OverdueLeases(s, clock) ==>
                                          t in s.completed && s'.completed[t] == s.completed[t]
    ensures (forall t <- OverdueLeases(s, clock) :: t !in s.completed) ==>
              Pruned(Unpruned(s, order, clock), s'.completed)
  {
    var mid := SweptInTwo(s, order, clock, s');
    MembersOf(order, OverdueLeases(s, clock));
    assert SameTasks(mid, s');
    ExpiredTasksFail(s, order, clock, mid);
    if forall t <- OverdueLeases(s, clock) :: t !in s.completed {
      AllExpiredPruned(s, order, clock, mid);
    }
  }

  /** A second sweep at the same instant finds nothing to do. */
  lemma SecondSweepIsIdle(s: DState, order: seq<Id>, clock: Clock, s': DState, order': seq<Id>, s'': DState)
    requires Swept(s, order, clock, s') && Swept(s', order', clock, s'')
    ensures order' == [] && s'' == s'
  {
    SweepMovesExactlyTheOverdue(s, order, clock, s');
    NothingToSweep(s', order', clock, s'');
  }

  lemma NothingToSweep(s: DState, order: seq<Id>, clock: Clock, s': DState)
    requires (forall t <- s.leases :: clock.instant <= s.leases[t].deadline)
    requires (forall c <- s.clients :: clock.instant - s.clients[c] <= HEARTBEAT_TIMEOUT)
    requires Swept(s, order, clock, s')
    ensures order == [] && s' == s
  {
    assert OverdueLeases(s, clock) == {} && DeadClients(s, clock) == {};
    MembersOf(order, {});
    var mid := SweptInTwo(s, order, clock, s');
    assert s'.clients == s.clients && s'.queues == s.queues;
  }
}
