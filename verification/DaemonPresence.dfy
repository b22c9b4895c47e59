/**
 Over whole runs: whom the daemon takes for present, and what a client that asks for
 its messages is given.
 */
module DaemonPresence {
  import opened DaemonIdle
  import opened DaemonLimits
  import opened DaemonModel
  import opened DaemonProtocol
  import opened DaemonQueues
  import opened DaemonSweep

  // ---- signs of life -------------------------------------------------------

  /** A registration that is accepted, or a heartbeat of a client that is registered. */
  ghost predicate Signs(cfg: Config, s: Sys, l: Label, c: Id) {
    || (l.Register? && l.client == c && (cfg.expectedVersion.None? || l.version == cfg.expectedVersion))
    || (l.Heartbeat? && l.client == c && c in s.d.clients)
  }

  /** A sweep that comes more than thirty seconds after the time. */
  ghost predicate TooLate(l: Label, seen: Time) {
    l.Sweep? && l.clock.instant - seen > 30_000_000_000
  }

  lemma PresenceStep(cfg: Config, s: Sys, l: Label, s': Sys, c: Id)
    requires Step(cfg, s, l, s')
    ensures Signs(cfg, s, l, c) ==> c in s'.d.clients && s'.d.clients[c] == l.clock.instant
    ensures !Signs(cfg, s, l, c) ==> (c in s'.d.clients <==> c in s.d.clients && !TooLate(l, s.d.clients[c]))
    ensures !Signs(cfg, s, l, c) && c in s'.d.clients ==> s'.d.clients[c] == s.d.clients[c]
  {
    if l.Sweep? {
      SweepMovesExactlyTheOverdue(s.d, l.order, l.clock, s'.d);
      assert c in DeadClients(s.d, l.clock) <==> c in s.d.clients && TooLate(l, s.d.clients[c]);
    }
  }

  /** Only an accepted registration is journaled. */
  lemma RegistrationsAreJournaled(cfg: Config, s: Sys, l: Label, s': Sys)
    requires l.Register? && Step(cfg, s, l, s')
    ensures s'.d.journal == s.d.journal + if Signs(cfg, s, l, l.client)
                                          then [JournalLine(RegisterEvent, l.msgId, l.client, ORCHESTRATOR)] else []
  {
    assert s.d.journal + [] == s.d.journal;
  }

  /** Section `j` is the last sign of life of the client, and no sweep has come too late since. */
  ghost predicate LastSeen(cfg: Config, states: seq<Sys>, labels: seq<Label>, n: nat, c: Id, j: nat) {
    && j < n <= |labels| < |states|
    && Signs(cfg, states[j], labels[j], c)
    && forall k :: j < k < n ==> !Signs(cfg, states[k], labels[k], c) && !TooLate(labels[k], labels[j].clock.instant)
  }

  ghost predicate OnFileAs(d: DState, c: Id, seen: Time) {
    c in d.clients && d.clients[c] == seen
  }

  lemma SignPutsOnFile(cfg: Config, states: seq<Sys>, labels: seq<Label>, m: nat, c: Id)
    requires Run(cfg, states, labels) && m < |labels| && Signs(cfg, states[m], labels[m], c)
    ensures OnFileAs(states[m + 1].d, c, labels[m].clock.instant)
  {
    PresenceStep(cfg, states[m], labels[m], states[m + 1], c);
  }

  lemma SilenceKeepsOnFile(cfg: Config, states: seq<Sys>, labels: seq<Label>, m: nat, c: Id, seen: Time)
    requires Run(cfg, states, labels) && m < |labels| && !Signs(cfg, states[m], labels[m], c)
    ensures OnFileAs(states[m + 1].d, c, seen) <==> OnFileAs(states[m].d, c, seen) && !TooLate(labels[m], seen)
  {
    PresenceStep(cfg, states[m], labels[m], states[m + 1], c);
  }

  lemma SeenEarlier(cfg: Config, states: seq<Sys>, labels: seq<Label>, n: nat, c: Id, j: nat)
    requires LastSeen(cfg, states, labels, n, c, j) && j < n - 1
    ensures LastSeen(cfg, states, labels, n - 1, c, j)
    ensures !Signs(cfg, states[n - 1], labels[n - 1], c) && !TooLate(labels[n - 1], labels[j].clock.instant)
  {
  }

  lemma {:induction false} SeenIsOnFile(cfg: Config, states: seq<Sys>, labels: seq<Label>, n: nat, c: Id, j: nat)
    requires Run(cfg, states, labels) && LastSeen(cfg, states, labels, n, c, j)
    ensures OnFileAs(states[n].d, c, labels[j].clock.instant)
  {
    if j == n - 1 {
      SignPutsOnFile(cfg, states, labels, j, c);
    } else {
      SeenEarlier(cfg, states, labels, n, c, j);
      SeenIsOnFile(cfg, states, labels, n - 1, c, j);
      SilenceKeepsOnFile(cfg, states, labels, n - 1, c, labels[j].clock.instant);
    }
  }

  lemma StillSeen(cfg: Config, states: seq<Sys>, labels: seq<Label>, n: nat, c: Id, j: nat)
    requires 0 < n <= |labels| < |states| && LastSeen(cfg, states, labels, n - 1, c, j)
    requires !Signs(cfg, states[n - 1], labels[n - 1], c) && !TooLate(labels[n - 1], labels[j].clock.instant)
    ensures LastSeen(cfg, states, labels, n, c, j)
  {
  }

  lemma {:induction false} OnFileWasSeen(cfg: Config, states: seq<Sys>, labels: seq<Label>, n: nat, c: Id)
      returns (j: nat)
    requires Run(cfg, states, labels) && n < |states| && c in states[n].d.clients
    ensures LastSeen(cfg, states, labels, n, c, j)
  {
    assert n > 0;
    if Signs(cfg, states[n - 1], labels[n - 1], c) {
      j := n - 1;
    } else {
      SilenceKeepsOnFile(cfg, states, labels, n - 1, c, states[n].d.clients[c]);
      j := OnFileWasSeen(cfg, states, labels, n - 1, c);
      SeenIsOnFile(cfg, states, labels, n - 1, c, j);
      StillSeen(cfg, states, labels, n, c, j);
    }
  }

  /**
   A client is on file exactly if it has registered, with the right version, and has
   not been silent for more than thirty seconds at a sweep since its last sign of
   life, whose time is the one on file.
   */
  lemma OnFileWhilePresent(cfg: Config, states: seq<Sys>, labels: seq<Label>, n: nat, c: Id)
    requires Run(cfg, states, labels) && n < |states|
    ensures c in states[n].d.clients <==> exists j: nat :: LastSeen(cfg, states, labels, n, c, j)
    ensures forall j: nat :: LastSeen(cfg, states, labels, n, c, j) ==>
                               c in states[n].d.clients && states[n].d.clients[c] == labels[j].clock.instant
  {
    forall j: nat | LastSeen(cfg, states, labels, n, c, j)
      ensures OnFileAs(states[n].d, c, labels[j].clock.instant)
    {
      SeenIsOnFile(cfg, states, labels, n, c, j);
    }
    if c in states[n].d.clients {
      var j := OnFileWasSeen(cfg, states, labels, n, c);
    }
  }

  /** The daemon sees live clients exactly if one has given a sign of life less than thirty seconds ago. */
  lemma LiveClientsWereSeen(cfg: Config, states: seq<Sys>, labels: seq<Label>, n: nat, clock: Clock)
    requires Run(cfg, states, labels) && n < |states|
    ensures HasLiveClients(states[n].d, clock) <==>
            exists c: Id, j: nat :: LastSeen(cfg, states, labels, n, c, j)
                                    && clock.instant - labels[j].clock.instant < 30_000_000_000
  {
    if HasLiveClients(states[n].d, clock) {
      var c :| c in states[n].d.clients && clock.instant - states[n].d.clients[c] < HEARTBEAT_TIMEOUT;
      var j := OnFileWasSeen(cfg, states, labels, n, c);
      SeenIsOnFile(cfg, states, labels, n, c, j);
    }
    if c: Id, j: nat :| LastSeen(cfg, states, labels, n, c, j)
                        && clock.instant - labels[j].clock.instant < 30_000_000_000 {
      SeenIsOnFile(cfg, states, labels, n, c, j);
    }
  }

  // ---- what is handed over -------------------------------------------------

  /** The client asks for its messages. */
  predicate Asks(l: Label, c: Id) {
    (l.PollQueue? || l.Heartbeat?) && l.client == c
  }

  /** After such a section nothing waits for the client. */
  ghost predicate Empties(s: Sys, l: Label, c: Id) {
    Asks(l, c) || (c in s.d.clients && TooLate(l, s.d.clients[c]))
  }

  /** What is queued for the client is put behind what waits for it. */
  ghost predicate Grows(d: DState, d': DState, c: Id) {
    exists more :: To(d'.sent, c) == To(d.sent, c) + more && QueueOf(d'.queues, c) == QueueOf(d.queues, c) + more
  }

  lemma MailGrows(d: DState, mail: seq<Envelope>, d': DState, c: Id)
    requires Mailed(d, mail, d')
    ensures Grows(d, d', c)
  {
    PutAllQueue(d.queues, mail, c);
    ToAppendAll(d.sent, mail, c);
  }

  lemma NothingGrows(d: DState, d': DState, c: Id)
    requires d'.sent == d.sent && QueueOf(d'.queues, c) == QueueOf(d.queues, c)
    ensures Grows(d, d', c)
  {
    assert To(d.sent, c) + [] == To(d.sent, c) && QueueOf(d.queues, c) + [] == QueueOf(d.queues, c);
  }

  lemma SweepGrows(d: DState, order: seq<Id>, clock: Clock, d': DState, c: Id)
    requires Swept(d, order, clock, d') && c !in DeadClients(d, clock)
    ensures Grows(d, d', c)
  {
    SweepMovesExactlyTheOverdue(d, order, clock, d');
    ToAppendAll(d.sent, TimeoutMail(d.leases, order), c);
  }

  lemma QueuesGrow(cfg: Config, s: Sys, l: Label, s': Sys, c: Id)
    requires Step(cfg, s, l, s') && !Empties(s, l, c)
    ensures Grows(s.d, s'.d, c)
  {
    match l
    case DelegateIn(msg, approvalId, clock) =>
      var mail := DelegateMail(cfg, s.d, msg, approvalId, clock, s'.d);
      MailGrows(s.d, mail, s'.d, c);
    case CreateLease(call, clock) =>
      var msg := s.calls[call].Origin();
      MailGrows(s.d, if s.calls[call].NotifiesWorker() then [Envelope(msg.to, Msg(TaskMsg, msg.id, ORCHESTRATOR, msg.to))]
                     else [], s'.d, c);
    case RecordRefusal(call, clock) => MailGrows(s.d, FailureMail(s.calls[call].Origin()), s'.d, c);
    case NotifyIn(m, clock) =>
      if m.status.SaysAck? {
        NothingGrows(s.d, s'.d, c);
      } else {
        MailGrows(s.d, [ReportMsg(SettledLease(s.d, m.TaskId()), m)], s'.d, c);
      }
    case Sweep(clock, order) => SweepGrows(s.d, order, clock, s'.d, c);
    case _ => NothingGrows(s.d, s'.d, c);
  }

  lemma QueueEmptied(cfg: Config, s: Sys, l: Label, s': Sys, c: Id)
    requires Step(cfg, s, l, s') && Empties(s, l, c)
    ensures QueueOf(s'.d.queues, c) == []
  {
    if l.Sweep? {
      SweepMovesExactlyTheOverdue(s.d, l.order, l.clock, s'.d);
      assert c in DeadClients(s.d, l.clock);
    }
  }

  /** Nothing has emptied the client's queue since state `i`, in which nothing waited for it. */
  ghost predicate WaitsSince(states: seq<Sys>, labels: seq<Label>, i: nat, n: nat, c: Id) {
    && i <= n <= |labels| < |states|
    && (i > 0 ==> Empties(states[i - 1], labels[i - 1], c))
    && forall k :: i <= k < n ==> !Empties(states[k], labels[k], c)
  }

  /** What has been queued for the client since state `i`. */
  ghost function SentSince(states: seq<Sys>, i: nat, n: nat, c: Id): seq<Msg>
    requires i < |states| && n < |states| && |To(states[i].d.sent, c)| <= |To(states[n].d.sent, c)|
  {
    To(states[n].d.sent, c)[|To(states[i].d.sent, c)|..]
  }

  /** What waits is all that has been queued since the queue was last emptied. */
  lemma {:induction false} WaitingIsSentSince(cfg: Config, states: seq<Sys>, labels: seq<Label>, i: nat, n: nat, c: Id)
    requires Run(cfg, states, labels) && WaitsSince(states, labels, i, n, c)
    ensures To(states[i].d.sent, c) <= To(states[n].d.sent, c)
    ensures QueueOf(states[n].d.queues, c) == SentSince(states, i, n, c)
  {
    if i == n {
      if i > 0 {
        QueueEmptied(cfg, states[i - 1], labels[i - 1], states[i], c);
      }
    } else {
      WaitingIsSentSince(cfg, states, labels, i, n - 1, c);
      QueuesGrow(cfg, states[n - 1], labels[n - 1], states[n], c);
      TailGrows(states[i].d, states[n - 1].d, states[n].d, c);
    }
  }

  lemma {:induction false} TailGrows(start: DState, d: DState, d': DState, c: Id)
    requires To(start.sent, c) <= To(d.sent, c) && Grows(d, d', c)
    requires QueueOf(d.queues, c) == To(d.sent, c)[|To(start.sent, c)|..]
    ensures To(start.sent, c) <= To(d'.sent, c)
    ensures QueueOf(d'.queues, c) == To(d'.sent, c)[|To(start.sent, c)|..]
  {
  }

  /**
   A client that polls or beats is given the oldest message queued for it since its
   queue was last emptied, if there is one, and nothing else; nobody else is given
   anything.
   */
  lemma {:induction false} PollsGiveTheOldest(cfg: Config, states: seq<Sys>, labels: seq<Label>, i: nat, n: nat, c: Id)
    requires Run(cfg, states, labels) && WaitsSince(states, labels, i, n, c) && n < |labels| && Asks(labels[n], c)
    ensures To(states[i].d.sent, c) <= To(states[n].d.sent, c)
    ensures var waiting := SentSince(states, i, n, c);
            && states[n + 1].d.got
               == states[n].d.got + (if waiting == [] then [] else [Envelope(c, waiting[0])])
            && states[n + 1].d.sent == states[n].d.sent
  {
    WaitingIsSentSince(cfg, states, labels, i, n, c);
    assert Step(cfg, states[n], labels[n], states[n + 1]);
  }

  /** Such a state there always is. */
  lemma {:induction false} LastEmptied(states: seq<Sys>, labels: seq<Label>, n: nat, c: Id) returns (i: nat)
    requires n <= |labels| < |states|
    ensures WaitsSince(states, labels, i, n, c)
  {
    if n == 0 || Empties(states[n - 1], labels[n - 1], c) {
      i := n;
    } else {
      i := LastEmptied(states, labels, n - 1, c);
    }
  }

  /** Nothing is handed over but to who asks. */
  lemma OnlyWhoAsksIsGiven(cfg: Config, s: Sys, l: Label, s': Sys)
    requires Step(cfg, s, l, s') && s'.d.got != s.d.got
    ensures exists c :: Asks(l, c) && QueueOf(s.d.queues, c) != []
                        && s'.d.got == s.d.got + [Envelope(c, QueueOf(s.d.queues, c)[0])]
  {
    match l
    case Heartbeat(c, _) => assert Asks(l, c);
    case PollQueue(c) => assert Asks(l, c);
    case Sweep(clock, order) => SweepHandsOverNothing(s.d, order, clock, s'.d);
    case DelegateIn(msg, approvalId, clock) =>
      var mail := DelegateMail(cfg, s.d, msg, approvalId, clock, s'.d);
    case _ =>
  }
}
