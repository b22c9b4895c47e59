/**
 The orchestration daemon's shared state as a value, and what each section of
 code that holds the state lock does to it.

 Every section is a relation between the state before and the state after. It is
 a true relation only where a hash map's iteration order shows through: the sweep
 visits overdue leases in any order, and `prune_completed` may drop tasks of equal
 age in any order.
 */
module DaemonModel {
  import opened Wrappers

  /** Ids of clients, tasks, messages and approvals. The daemon only ever compares them. */
  type Id = nat
  const ORCHESTRATOR: Id := 0

  type Time = int
  const SECOND: Time := 1_000_000_000
  const LEASE_TTL: Time := 900 * SECOND
  const HEARTBEAT_TIMEOUT: Time := 30 * SECOND
  const MAX_COMPLETED_TASKS: nat := 1000

  /** The two clocks a section reads: monotonic, for deadlines, and wall clock, for records. */
  datatype Clock = Clock(instant: Time, utc: Time)

  datatype TaskStatus = Pending | InProgress | Completed | Failed | Cancelled {
    predicate Terminal() { Completed? || Failed? || Cancelled? }
  }

  /** The status words the daemon tells apart in a NOTIFY; no status at all counts as "completed". */
  datatype StatusWord = SaysCompleted | SaysFailed | SaysCancelled | SaysPending | SaysAck | SaysOther

  function MapStatus(word: StatusWord): TaskStatus {
    match word
    case SaysCompleted => Completed
    case SaysFailed => Failed
    case SaysCancelled => Cancelled
    case SaysPending => Pending
    case _ => InProgress
  }

  datatype Notice = Notice(receivedAt: Time, status: StatusWord)

  datatype Task = Task(id: Id, delegatedTo: Id, createdAt: Time, status: TaskStatus,
                       lastActivity: Time, notifications: seq<Notice>)

  datatype Lease = Lease(taskId: Id, assignedTo: Id, originalFrom: Id, deadline: Time, returnTo: Option<Id>)
  {
    function ReturnTarget(): Id { returnTo.GetOr(originalFrom) }
  }

  /** A DELEGATE message; `tool` and `payload` stand for what only the policy looks at. */
  datatype Delegate = Delegate(id: Id, from: Id, to: Id, returnTo: Option<Id>, tool: string, payload: string)
  {
    function ReturnTarget(): Id { returnTo.GetOr(from) }
  }

  datatype PendingApproval = PendingApproval(taskId: Id, original: Delegate, tool: string, requestedAt: Time)

  /** A NOTIFY message: the task is named by the payload or, failing that, by the message id. */
  datatype Notify = Notify(msgId: Id, payloadTask: Option<Id>, from: Id, returnTo: Option<Id>, status: StatusWord)
  {
    function TaskId(): Id { payloadTask.GetOr(msgId) }
  }

  datatype Verdict = Granted | Refused | Unclear

  /** Messages the daemon queues for its clients. */
  datatype MsgKind = TaskMsg | NotifyMsg(status: StatusWord) | ApprovalMsg
  datatype Msg = Msg(kind: MsgKind, about: Id, from: Id, to: Id)
  datatype Envelope = Envelope(client: Id, msg: Msg)

  datatype Event = RegisterEvent | DelegateEvent | PolicyEvent | NotifyEvent
  datatype JournalLine = JournalLine(event: Event, msgId: Id, from: Id, to: Id)

  datatype PolicyAction = Allow | Deny | NeedApproval

  /** What is fixed when the daemon starts. */
  datatype Config = Config(workers: set<Id>, approver: Id, expectedVersion: Option<string>,
                           policy: Delegate -> PolicyAction)

  /** Work a handler still has to do after giving up the lock. */
  datatype Call =
    | Delegation(msg: Delegate, notifyWorker: bool)
    | GrantTaken(approvalId: Id, pending: PendingApproval, approver: Id)
    | Approved(approvalId: Id, pending: PendingApproval)
    | RefusalTaken(approvalId: Id, pending: PendingApproval, approver: Id)
  {
    /** The DELEGATE message this work goes back to. */
    function Origin(): Delegate {
      match this
      case Delegation(msg, _) => msg
      case _ => pending.original
    }

    predicate MayLease() { Delegation? || Approved? }

    /** A worker that runs as a subprocess is not told through its queue. */
    predicate NotifiesWorker() { Delegation? ==> notifyWorker }
  }

  /**
   The daemon state. `sent` and `got` are history: every message ever queued, and
   every message ever handed to a client, in order.
   */
  datatype DState = DState(
    clients: map<Id, Time>,
    leases: map<Id, Lease>,
    expired: map<Id, Lease>,
    queues: map<Id, seq<Msg>>,
    approvals: map<Id, PendingApproval>,
    active: map<Id, Task>,
    completed: map<Id, Task>,
    journal: seq<JournalLine>,
    sent: seq<Envelope>,
    got: seq<Envelope>)

  const EMPTY: DState := DState(map[], map[], map[], map[], map[], map[], map[], [], [], [])

  /** The map without one key. */
  function Drop<V>(m: map<Id, V>, key: Id): (r: map<Id, V>)
    ensures forall k :: k in r <==> k in m && k != key
    ensures forall k <- r :: r[k] == m[k]
  {
    m - {key}
  }

  // ---- notification queues -------------------------------------------------

  function QueueOf(queues: map<Id, seq<Msg>>, client: Id): seq<Msg> {
    if client in queues then queues[client] else []
  }

  function Put(queues: map<Id, seq<Msg>>, e: Envelope): map<Id, seq<Msg>> {
    queues[e.client := QueueOf(queues, e.client) + [e.msg]]
  }

  function PutAll(queues: map<Id, seq<Msg>>, mail: seq<Envelope>): map<Id, seq<Msg>>
    decreases |mail|
  {
    if mail == [] then queues else Put(PutAll(queues, mail[..|mail| - 1]), mail[|mail| - 1])
  }

  ghost predicate Mailed(s: DState, mail: seq<Envelope>, s': DState) {
    s'.queues == PutAll(s.queues, mail) && s'.sent == s.sent + mail
  }

  ghost predicate Logged(s: DState, event: Event, msgId: Id, from: Id, to: Id, s': DState) {
    s'.journal == s.journal + [JournalLine(event, msgId, from, to)]
  }

  // ---- task records --------------------------------------------------------

  /** `after` is `before` cut to the limit, and nothing cut is more recent than anything kept. */
  ghost predicate Pruned(before: map<Id, Task>, after: map<Id, Task>) {
    && (forall t <- after :: t in before && after[t] == before[t])
    && |after| == (if |before| <= MAX_COMPLETED_TASKS then |before| else MAX_COMPLETED_TASKS)
    && (forall gone, kept :: gone in before && gone !in after && kept in after
                             ==> before[gone].lastActivity <= before[kept].lastActivity)
  }

  /** Where a task goes once its status is known. */
  ghost predicate Filed(active: map<Id, Task>, completed: map<Id, Task>, task: Task,
                        active': map<Id, Task>, completed': map<Id, Task>)
  {
    if task.status.Terminal() then
      active' == active && Pruned(completed[task.id := task], completed')
    else
      active' == active[task.id := task] && completed' == completed
  }

  function FoundTask(active: map<Id, Task>, completed: map<Id, Task>, t: Id): Option<Task> {
    if t in active then Some(active[t])
    else if t in completed then Some(completed[t])
    else None
  }

  /** The record is taken out of one store: the active one if it is there. */
  function CompletedWithout(active: map<Id, Task>, completed: map<Id, Task>, t: Id): map<Id, Task> {
    if t in active then completed else Drop(completed, t)
  }

  /** The record with one more notice on it, or a fresh record when there was none. */
  function Recorded(found: Option<Task>, t: Id, worker: Id, word: StatusWord, utc: Time): Task {
    match found
    case Some(task) => task.(status := MapStatus(word), lastActivity := utc,
                             notifications := task.notifications + [Notice(utc, word)])
    case None => Task(t, worker, utc, MapStatus(word), utc, [Notice(utc, word)])
  }

  // ---- sections ------------------------------------------------------------

  ghost predicate SameTasks(s: DState, s': DState) { s'.active == s.active && s'.completed == s.completed }
  ghost predicate SameLeases(s: DState, s': DState) { s'.leases == s.leases && s'.expired == s.expired }
  ghost predicate SameMail(s: DState, s': DState) { s'.queues == s.queues && s'.sent == s.sent && s'.got == s.got }

  ghost predicate Registered(cfg: Config, s: DState, msgId: Id, client: Id, version: Option<string>, clock: Clock,
                             s': DState)
  {
    && SameTasks(s, s') && SameLeases(s, s') && SameMail(s, s') && s'.approvals == s.approvals
    && if cfg.expectedVersion.Some? && version != cfg.expectedVersion then
         s'.clients == s.clients && s'.journal == s.journal
       else
         s'.clients == s.clients[client := clock.instant]
         && Logged(s, RegisterEvent, msgId, client, ORCHESTRATOR, s')
  }

  /** The head of the queue is handed over; the rest of the queue is discarded with it. */
  ghost predicate HandedOver(s: DState, client: Id, s': DState) {
    && s'.queues == Drop(s.queues, client) && s'.sent == s.sent
    && s'.got == s.got + if QueueOf(s.queues, client) == [] then []
                         else [Envelope(client, QueueOf(s.queues, client)[0])]
  }

  ghost predicate Polled(s: DState, client: Id, s': DState) {
    && SameTasks(s, s') && SameLeases(s, s') && s'.approvals == s.approvals && s'.journal == s.journal
    && s'.clients == s.clients
    && HandedOver(s, client, s')
  }

  ghost predicate HeartBeaten(s: DState, client: Id, clock: Clock, s': DState) {
    && SameTasks(s, s') && SameLeases(s, s') && s'.approvals == s.approvals && s'.journal == s.journal
    && s'.clients == (if client in s.clients then s.clients[client := clock.instant] else s.clients)
    && HandedOver(s, client, s')
  }

  predicate IsAlive(s: DState, client: Id, clock: Clock) {
    client in s.clients && clock.instant - s.clients[client] < HEARTBEAT_TIMEOUT
  }

  function FailureMsg(t: Id, target: Id): Envelope {
    Envelope(target, Msg(NotifyMsg(SaysFailed), t, ORCHESTRATOR, target))
  }

  /** A failure is reported to the return target and, if that is someone else, to the sender. */
  function FailureMail(msg: Delegate): seq<Envelope> {
    [FailureMsg(msg.id, msg.ReturnTarget())]
    + if msg.ReturnTarget() == msg.from then [] else [FailureMsg(msg.id, msg.from)]
  }

  /** Denied, by the policy or by the approver. */
  ghost predicate FailureRecorded(s: DState, journalId: Id, author: Id, msg: Delegate, clock: Clock, s': DState) {
    && s'.clients == s.clients && SameLeases(s, s') && s'.approvals == s.approvals && s'.got == s.got
    && Logged(s, PolicyEvent, journalId, author, ORCHESTRATOR, s')
    && Mailed(s, FailureMail(msg), s')
    && Filed(s.active, s.completed, Recorded(None, msg.id, msg.to, SaysFailed, clock.utc), s'.active, s'.completed)
  }

  ghost predicate ApprovalRequested(cfg: Config, s: DState, msg: Delegate, approvalId: Id, clock: Clock, s': DState) {
    && s'.clients == s.clients && SameLeases(s, s') && SameTasks(s, s') && s'.got == s.got
    && s'.approvals == s.approvals[approvalId := PendingApproval(msg.id, msg, msg.tool, clock.instant)]
    && Mailed(s, [Envelope(cfg.approver, Msg(ApprovalMsg, approvalId, ORCHESTRATOR, cfg.approver))], s')
    && Logged(s, PolicyEvent, approvalId, ORCHESTRATOR, cfg.approver, s')
  }

  /** First section of a DELEGATE: refuse it, park it for approval, or leave the state as it is. */
  ghost predicate Delegated(cfg: Config, s: DState, msg: Delegate, approvalId: Id, clock: Clock, s': DState) {
    match cfg.policy(msg)
    case Deny => FailureRecorded(s, msg.id, msg.from, msg, clock, s')
    case NeedApproval => ApprovalRequested(cfg, s, msg, approvalId, clock, s')
    case Allow => s' == s
  }

  /** What the handler goes on to do after that section, without the lock. */
  function DelegateNext(cfg: Config, s: DState, msg: Delegate, clock: Clock): Option<Call> {
    if cfg.policy(msg) != Allow then None
    else if msg.to in cfg.workers then Some(Delegation(msg, false))
    else if IsAlive(s, msg.to, clock) then Some(Delegation(msg, true))
    else None
  }

  /** The section that creates a lease and its task record. */
  ghost predicate LeaseCreated(s: DState, msg: Delegate, notifyWorker: bool, clock: Clock, s': DState) {
    && s'.clients == s.clients && s'.approvals == s.approvals && s'.got == s.got
    && s'.expired == s.expired && s'.completed == s.completed
    && s'.leases == s.leases[msg.id := Lease(msg.id, msg.to, msg.from, clock.instant + LEASE_TTL, msg.returnTo)]
    && s'.active == s.active[msg.id := Task(msg.id, msg.to, clock.utc, if notifyWorker then Pending else InProgress,
                                            clock.utc, [])]
    && Mailed(s, if notifyWorker then [Envelope(msg.to, Msg(TaskMsg, msg.id, ORCHESTRATOR, msg.to))] else [], s')
    && Logged(s, DelegateEvent, msg.id, msg.from, msg.to, s')
  }

  /** First section of an approval decision: whatever the verdict, the approval is consumed. */
  ghost predicate ApprovalTaken(s: DState, approvalId: Id, s': DState) {
    && s'.clients == s.clients && SameLeases(s, s') && SameTasks(s, s') && SameMail(s, s') && s'.journal == s.journal
    && s'.approvals == Drop(s.approvals, approvalId)
  }

  function DecisionNext(s: DState, approvalId: Id, approver: Id, verdict: Verdict): Option<Call> {
    if approvalId !in s.approvals then None
    else match verdict
         case Granted => Some(GrantTaken(approvalId, s.approvals[approvalId], approver))
         case Refused => Some(RefusalTaken(approvalId, s.approvals[approvalId], approver))
         case Unclear => None
  }

  ghost predicate GrantLogged(s: DState, approvalId: Id, approver: Id, s': DState) {
    && s'.clients == s.clients && SameLeases(s, s') && SameTasks(s, s') && SameMail(s, s')
    && s'.approvals == s.approvals
    && Logged(s, PolicyEvent, approvalId, approver, ORCHESTRATOR, s')
  }

  /** The lease a NOTIFY settles: the live one if there is one, else the expired one. */
  function SettledIn(leases: map<Id, Lease>, expired: map<Id, Lease>, t: Id): Option<Lease> {
    if t in leases then Some(leases[t])
    else if t in expired then Some(expired[t])
    else None
  }

  function SettledLease(s: DState, t: Id): Option<Lease> {
    SettledIn(s.leases, s.expired, t)
  }

  /** Who is told about it: whoever the message or, failing that, the settled lease names. */
  function ReportTarget(lease: Option<Lease>, m: Notify): Id {
    m.returnTo.GetOr(match lease case Some(l) => l.originalFrom case None => m.from)
  }

  function ReportMsg(lease: Option<Lease>, m: Notify): Envelope {
    Envelope(ReportTarget(lease, m), Msg(NotifyMsg(m.status), m.TaskId(), ORCHESTRATOR, ReportTarget(lease, m)))
  }

  function ReportedTask(lease: Option<Lease>, active: map<Id, Task>, completed: map<Id, Task>, m: Notify, clock: Clock): Task {
    var worker := match lease case Some(l) => l.assignedTo case None => m.from;
    Recorded(FoundTask(active, completed, m.TaskId()), m.TaskId(), worker, m.status, clock.utc)
  }

  function NotifyTarget(s: DState, m: Notify): Id {
    ReportTarget(SettledLease(s, m.TaskId()), m)
  }

  function NotifyTask(s: DState, m: Notify, clock: Clock): Task {
    ReportedTask(SettledLease(s, m.TaskId()), s.active, s.completed, m, clock)
  }

  /** A NOTIFY that is not an ACK: settle the lease, update the record, tell the return target. */
  ghost predicate Notified(s: DState, m: Notify, clock: Clock, s': DState) {
    var t, target := m.TaskId(), NotifyTarget(s, m);
    && s'.clients == s.clients && s'.approvals == s.approvals && s'.got == s.got
    && s'.leases == Drop(s.leases, t)
    && (t in s.leases ==> s'.expired == s.expired)
    && (t !in s.leases ==> s'.expired == Drop(s.expired, t))
    && Mailed(s, [ReportMsg(SettledLease(s, t), m)], s')
    && Logged(s, NotifyEvent, t, m.from, target, s')
    && Filed(Drop(s.active, t), CompletedWithout(s.active, s.completed, t), NotifyTask(s, m, clock), s'.active, s'.completed)
  }

  // ---- the clock sweep -----------------------------------------------------

  ghost function OverdueLeases(s: DState, clock: Clock): set<Id> {
    set t | t in s.leases && clock.instant > s.leases[t].deadline
  }

  ghost function DeadClients(s: DState, clock: Clock): set<Id> {
    set c | c in s.clients && clock.instant - s.clients[c] > HEARTBEAT_TIMEOUT
  }

  function TimeoutMsg(t: Id, lease: Lease): Envelope {
    Envelope(lease.ReturnTarget(), Msg(NotifyMsg(SaysFailed), t, lease.assignedTo, lease.ReturnTarget()))
  }

  function TimeoutLine(t: Id, lease: Lease): JournalLine {
    JournalLine(NotifyEvent, t, lease.assignedTo, lease.ReturnTarget())
  }

  function ExpiredRecord(lease: Lease, active: map<Id, Task>, completed: map<Id, Task>, t: Id, clock: Clock): Task {
    Recorded(FoundTask(active, completed, t), t, lease.assignedTo, SaysFailed, clock.utc)
  }

  function ExpiredTask(s: DState, t: Id, clock: Clock): Task
    requires t in s.leases
  {
    ExpiredRecord(s.leases[t], s.active, s.completed, t, clock)
  }

  ghost predicate LeaseExpired(s: DState, t: Id, clock: Clock, s': DState) {
    && t in s.leases
    && var lease := s.leases[t];
    && s'.clients == s.clients && s'.approvals == s.approvals && s'.got == s.got
    && s'.leases == Drop(s.leases, t) && s'.expired == s.expired[t := lease]
    && Mailed(s, [TimeoutMsg(t, lease)], s')
    && Logged(s, NotifyEvent, t, lease.assignedTo, lease.ReturnTarget(), s')
    && Filed(Drop(s.active, t), CompletedWithout(s.active, s.completed, t), ExpiredTask(s, t, clock), s'.active, s'.completed)
  }

  /** The leases in `order` expire one after the other. */
  ghost predicate AllExpired(s: DState, order: seq<Id>, clock: Clock, s': DState)
    decreases |order|
  {
    if order == [] then s' == s
    else
      var earlier, last := order[..|order| - 1], order[|order| - 1];
      exists mid :: AllExpired(s, earlier, clock, mid) && LeaseExpired(mid, last, clock, s')
  }

  ghost predicate DeadDropped(s: DState, clock: Clock, s': DState) {
    && SameTasks(s, s') && SameLeases(s, s') && s'.approvals == s.approvals && s'.journal == s.journal
    && s'.sent == s.sent && s'.got == s.got
    && s'.clients == s.clients - DeadClients(s, clock)
    && s'.queues == s.queues - DeadClients(s, clock)
  }

  ghost predicate Enumerates(order: seq<Id>, items: set<Id>) {
    && (forall x :: x in order <==> x in items)
    && (forall i, j :: 0 <= i < j < |order| ==> order[i] != order[j])
  }

  ghost predicate Swept(s: DState, order: seq<Id>, clock: Clock, s': DState) {
    && Enumerates(order, OverdueLeases(s, clock))
    && exists mid :: AllExpired(s, order, clock, mid) && DeadDropped(mid, clock, s')
  }

  // ---- what every section keeps -------------------------------------------

  ghost predicate KeyedById(tasks: map<Id, Task>) {
    forall t <- tasks :: tasks[t].id == t
  }

  ghost predicate LeasesKeyed(leases: map<Id, Lease>) {
    forall t <- leases :: leases[t].taskId == t
  }

  /** A task without a lease has heard from its worker at least once. */
  ghost predicate ActiveOpen(active: map<Id, Task>, leases: map<Id, Lease>) {
    && KeyedById(active)
    && (forall t <- active :: !active[t].status.Terminal() && (t in leases || active[t].notifications != []))
  }

  ghost predicate CompletedClosed(completed: map<Id, Task>) {
    && KeyedById(completed)
    && (forall t <- completed :: completed[t].status.Terminal())
    && |completed| <= MAX_COMPLETED_TASKS
  }

  ghost predicate ApprovalsKeyed(approvals: map<Id, PendingApproval>) {
    forall a <- approvals :: approvals[a].taskId == approvals[a].original.id
  }

  ghost predicate Consistent(s: DState) {
    && LeasesKeyed(s.leases) && LeasesKeyed(s.expired)
    && (forall t <- s.leases :: t in s.active)
    && ActiveOpen(s.active, s.leases)
    && CompletedClosed(s.completed)
    && ApprovalsKeyed(s.approvals)
  }
}
