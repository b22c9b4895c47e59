/**
 The daemon as a protocol: any number of handlers, each a chain of sections that
 hold the state lock, interleaved in any order with each other and with the sweep.
 */
module DaemonProtocol {
  import opened Wrappers
  import opened DaemonModel
  import opened DaemonKeeps
  import opened DaemonQueues

  /** One section. A NOTIFY also stands for the report of a spawned worker. */
  datatype Label =
    | Register(msgId: Id, client: Id, version: Option<string>, clock: Clock)
    | Heartbeat(client: Id, clock: Clock)
    | PollQueue(client: Id)
    | DelegateIn(msg: Delegate, approvalId: Id, clock: Clock)
    | Decide(approvalId: Id, approver: Id, verdict: Verdict)
    | RecordGrant(call: nat)
    | CreateLease(call: nat, clock: Clock)
    | RecordRefusal(call: nat, clock: Clock)
    | NotifyIn(m: Notify, clock: Clock)
    | Sweep(clock: Clock, order: seq<Id>)
    | Status

  /**
   History: approval ids handed out, DELEGATE ids seen, tasks ever leased or
   recorded, leases created, and leases settled by a NOTIFY.
   */
  datatype Past = Past(approvalIds: set<Id>, asked: set<Id>, known: set<Id>, created: nat, settled: nat)

  /** The daemon with the handlers that are between two sections. */
  datatype Sys = Sys(d: DState, calls: map<nat, Call>, nextCall: nat, past: Past)

  const START: Sys := Sys(EMPTY, map[], 0, Past({}, {}, {}, 0, 0))

  /** A handler with work left goes on under a number of its own. */
  ghost predicate Launched(s: Sys, next: Option<Call>, s': Sys) {
    match next
    case Some(call) => s'.calls == s.calls[s.nextCall := call] && s'.nextCall == s.nextCall + 1
    case None => s'.calls == s.calls && s'.nextCall == s.nextCall
  }

  function DelegatePast(past: Past, action: PolicyAction, id: Id, approvalId: Id): Past {
    match action
    case Deny => past.(asked := past.asked + {id}, known := past.known + {id})
    case NeedApproval => past.(asked := past.asked + {id}, approvalIds := past.approvalIds + {approvalId})
    case Allow => past.(asked := past.asked + {id})
  }

  ghost predicate Step(cfg: Config, s: Sys, l: Label, s': Sys) {
    match l
    case Register(msgId, client, version, clock) =>
      Registered(cfg, s.d, msgId, client, version, clock, s'.d) && s' == s.(d := s'.d)
    case Heartbeat(client, clock) => HeartBeaten(s.d, client, clock, s'.d) && s' == s.(d := s'.d)
    case PollQueue(client) => Polled(s.d, client, s'.d) && s' == s.(d := s'.d)
    case DelegateIn(msg, approvalId, clock) =>
      && approvalId !in s.past.approvalIds // a freshly generated UUID
      && Delegated(cfg, s.d, msg, approvalId, clock, s'.d)
      && Launched(s, DelegateNext(cfg, s.d, msg, clock), s')
      && s'.past == DelegatePast(s.past, cfg.policy(msg), msg.id, approvalId)
    case Decide(approvalId, approver, verdict) =>
      && ApprovalTaken(s.d, approvalId, s'.d)
      && Launched(s, DecisionNext(s.d, approvalId, approver, verdict), s')
      && s'.past == s.past
    case RecordGrant(call) =>
      && call in s.calls && s.calls[call].GrantTaken?
      && var grant := s.calls[call];
      && GrantLogged(s.d, grant.approvalId, grant.approver, s'.d)
      && s' == s.(d := s'.d, calls := s.calls[call := Approved(grant.approvalId, grant.pending)])
    case CreateLease(call, clock) =>
      && call in s.calls && s.calls[call].MayLease()
      && var msg := s.calls[call].Origin();
      && LeaseCreated(s.d, msg, s.calls[call].NotifiesWorker(), clock, s'.d)
      && s' == Sys(s'.d, Drop(s.calls, call), s.nextCall,
                   s.past.(known := s.past.known + {msg.id}, created := s.past.created + 1))
    case RecordRefusal(call, clock) =>
      && call in s.calls && s.calls[call].RefusalTaken?
      && var refusal := s.calls[call];
      && FailureRecorded(s.d, refusal.approvalId, refusal.approver, refusal.Origin(), clock, s'.d)
      && s' == Sys(s'.d, Drop(s.calls, call), s.nextCall,
                   s.past.(known := s.past.known + {refusal.Origin().id}))
    case NotifyIn(m, clock) =>
      if m.status.SaysAck? then s' == s
      else
        && Notified(s.d, m, clock, s'.d)
        && s' == Sys(s'.d, s.calls, s.nextCall,
                     s.past.(known := s.past.known + {m.TaskId()},
                             settled := s.past.settled + if SettledLease(s.d, m.TaskId()).Some? then 1 else 0))
    case Sweep(clock, order) => Swept(s.d, order, clock, s'.d) && s' == s.(d := s'.d)
    case Status => s' == s
  }

  ghost predicate Run(cfg: Config, states: seq<Sys>, labels: seq<Label>) {
    && |states| == |labels| + 1
    && states[0] == START
    && forall i :: 0 <= i < |labels| ==> Step(cfg, states[i], labels[i], states[i + 1])
  }

  lemma StepConsistent(cfg: Config, s: Sys, l: Label, s': Sys)
    requires Consistent(s.d) && Step(cfg, s, l, s')
    ensures Consistent(s'.d)
  {
    match l
    case DelegateIn(msg, approvalId, clock) =>
      if cfg.policy(msg) == Deny {
        FailureRecordedKeeps(s.d, msg.id, msg.from, msg, clock, s'.d);
      }
    case CreateLease(call, clock) =>
      LeaseCreatedKeeps(s.d, s.calls[call].Origin(), s.calls[call].NotifiesWorker(), clock, s'.d);
    case RecordRefusal(call, clock) =>
      var refusal := s.calls[call];
      FailureRecordedKeeps(s.d, refusal.approvalId, refusal.approver, refusal.Origin(), clock, s'.d);
    case NotifyIn(m, clock) =>
      if !m.status.SaysAck? { NotifiedKeeps(s.d, m, clock, s'.d); }
    case Sweep(clock, order) => SweptKeeps(s.d, order, clock, s'.d);
    case _ =>
  }

  lemma StepInOrder(cfg: Config, s: Sys, l: Label, s': Sys)
    requires InOrder(s.d) && Step(cfg, s, l, s')
    ensures InOrder(s'.d)
  {
    match l
    case Heartbeat(client, clock) => HandedOverInOrder(s.d, client, s'.d);
    case PollQueue(client) => HandedOverInOrder(s.d, client, s'.d);
    case DelegateIn(msg, approvalId, clock) =>
      match cfg.policy(msg) {
        case Deny => MailedInOrder(s.d, FailureMail(msg), s'.d);
        case NeedApproval =>
          MailedInOrder(s.d, [Envelope(cfg.approver, Msg(ApprovalMsg, approvalId, ORCHESTRATOR, cfg.approver))], s'.d);
        case Allow =>
      }
    case CreateLease(call, clock) =>
      var msg := s.calls[call].Origin();
      MailedInOrder(s.d, if s.calls[call].NotifiesWorker()
                         then [Envelope(msg.to, Msg(TaskMsg, msg.id, ORCHESTRATOR, msg.to))] else [], s'.d);
    case RecordRefusal(call, clock) => MailedInOrder(s.d, FailureMail(s.calls[call].Origin()), s'.d);
    case NotifyIn(m, clock) =>
      if !m.status.SaysAck? {
        var target := NotifyTarget(s.d, m);
        MailedInOrder(s.d, [Envelope(target, Msg(NotifyMsg(m.status), m.TaskId(), ORCHESTRATOR, target))], s'.d);
      }
    case Sweep(clock, order) =>
      var mid := SweptInTwo(s.d, order, clock, s'.d);
      AllExpiredInOrder(s.d, order, clock, mid);
      DeadDroppedInOrder(mid, clock, s'.d);
    case _ => SameMailInOrder(s.d, s'.d);
  }

  /** In every reachable state, leases, task stores and approvals agree with one another. */
  lemma {:induction false} EveryReachableStateIsConsistent(cfg: Config, states: seq<Sys>, labels: seq<Label>, n: nat)
    requires Run(cfg, states, labels) && n < |states|
    ensures Consistent(states[n].d)
  {
    if n > 0 {
      EveryReachableStateIsConsistent(cfg, states, labels, n - 1);
      StepConsistent(cfg, states[n - 1], labels[n - 1], states[n]);
    }
  }

  /** Over any run, whatever a client was handed is an ordered, repetition-free selection of what was queued for it. */
  lemma {:induction false} DeliveryKeepsOrder(cfg: Config, states: seq<Sys>, labels: seq<Label>, n: nat, client: Id)
    requires Run(cfg, states, labels) && n < |states|
    ensures var sent := To(states[n].d.sent, client);
            PickedBefore(To(states[n].d.got, client), sent, |sent|)
  {
    ReachableInOrder(cfg, states, labels, n);
    assert ClientInOrder(states[n].d, client);
    var sent, waiting := To(states[n].d.sent, client), QueueOf(states[n].d.queues, client);
    PickedMore(To(states[n].d.got, client), sent, |sent| - |waiting|, sent, |sent|);
  }

  lemma {:induction false} ReachableInOrder(cfg: Config, states: seq<Sys>, labels: seq<Label>, n: nat)
    requires Run(cfg, states, labels) && n < |states|
    ensures InOrder(states[n].d)
  {
    if n == 0 {
      forall client
        ensures ClientInOrder(EMPTY, client)
      {
        assert Picks([], [], [], 0);
      }
    } else {
      ReachableInOrder(cfg, states, labels, n - 1);
      StepInOrder(cfg, states[n - 1], labels[n - 1], states[n]);
    }
  }
}
