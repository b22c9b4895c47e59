/**
 Delivery: what a client is handed is an order-preserving selection, without
 repetition, of what was queued for it.
 */
module DaemonQueues {
  import opened DaemonModel
  import opened DaemonKeeps

  /** The messages of `log` addressed to one client, in order. */
  ghost function To(log: seq<Envelope>, client: Id): seq<Msg> {
    if log == [] then []
    else
      var last := log[|log| - 1];
      To(log[..|log| - 1], client) + if last.client == client then [last.msg] else []
  }

  /** `positions` picks `picked` out of the first `bound` messages of `log`, left to right, none twice. */
  ghost predicate Picks(picked: seq<Msg>, log: seq<Msg>, positions: seq<int>, bound: int) {
    && bound <= |log| && |positions| == |picked|
    && (forall i :: 0 <= i < |positions| ==> 0 <= positions[i] < bound && log[positions[i]] == picked[i])
    && (forall i, j :: 0 <= i < j < |positions| ==> positions[i] < positions[j])
  }

  ghost predicate PickedBefore(picked: seq<Msg>, log: seq<Msg>, bound: int) {
    exists positions :: Picks(picked, log, positions, bound)
  }

  /** The client's queue is the tail of what was ever queued for it; what it got was picked before that tail. */
  ghost predicate ClientInOrder(s: DState, client: Id) {
    var sent, got, waiting := To(s.sent, client), To(s.got, client), QueueOf(s.queues, client);
    && |waiting| <= |sent| && waiting == sent[|sent| - |waiting|..]
    && PickedBefore(got, sent, |sent| - |waiting|)
  }

  ghost predicate InOrder(s: DState) {
    forall client :: ClientInOrder(s, client)
  }

  lemma {:induction false} ToAppend(log: seq<Envelope>, e: Envelope, client: Id)
    ensures To(log + [e], client) == To(log, client) + if e.client == client then [e.msg] else []
  {
    assert (log + [e])[..|log|] == log;
  }

  /** A selection stays one when the log grows or the bound rises. */
  lemma PickedMore(picked: seq<Msg>, log: seq<Msg>, bound: int, longer: seq<Msg>, bound': int)
    requires PickedBefore(picked, log, bound) && log <= longer && bound <= bound' <= |longer|
    ensures PickedBefore(picked, longer, bound')
  {
    var positions :| Picks(picked, log, positions, bound);
    assert Picks(picked, longer, positions, bound');
  }

  lemma {:induction false} ToAppendAll(log: seq<Envelope>, mail: seq<Envelope>, client: Id)
    ensures To(log + mail, client) == To(log, client) + To(mail, client)
  {
    if mail == [] {
      assert log + mail == log;
    } else {
      var n := |mail| - 1;
      ToAppendAll(log, mail[..n], client);
      assert mail == mail[..n] + [mail[n]];
      assert log + mail == (log + mail[..n]) + [mail[n]];
      ToAppend(log + mail[..n], mail[n], client);
      ToAppend(mail[..n], mail[n], client);
    }
  }

  /** Queueing mail appends to each client's queue exactly what is addressed to it. */
  lemma {:induction false} PutAllQueue(queues: map<Id, seq<Msg>>, mail: seq<Envelope>, client: Id)
    ensures QueueOf(PutAll(queues, mail), client) == QueueOf(queues, client) + To(mail, client)
    decreases |mail|
  {
    if mail != [] {
      var n := |mail| - 1;
      PutAllQueue(queues, mail[..n], client);
    }
  }

  lemma MailedInOrder(s: DState, mail: seq<Envelope>, s': DState)
    requires InOrder(s) && Mailed(s, mail, s') && s'.got == s.got
    ensures InOrder(s')
  {
    forall client
      ensures ClientInOrder(s', client)
    {
      assert ClientInOrder(s, client);
      MailedOne(s, mail, s', client);
    }
  }

  lemma MailedOne(s: DState, mail: seq<Envelope>, s': DState, client: Id)
    requires ClientInOrder(s, client) && Mailed(s, mail, s') && s'.got == s.got
    ensures ClientInOrder(s', client)
  {
    PutAllQueue(s.queues, mail, client);
    ToAppendAll(s.sent, mail, client);
    var sent, waiting, more := To(s.sent, client), QueueOf(s.queues, client), To(mail, client);
    assert (sent + more)[|sent| - |waiting|..] == waiting + more;
    PickedMore(To(s.got, client), sent, |sent| - |waiting|, sent + more, |sent| - |waiting|);
  }

  lemma HandedOverInOrder(s: DState, target: Id, s': DState)
    requires InOrder(s) && HandedOver(s, target, s')
    ensures InOrder(s')
  {
    forall client
      ensures ClientInOrder(s', client)
    {
      assert ClientInOrder(s, client);
      HandedOverOne(s, target, s', client);
    }
  }

  lemma PickedNext(picked: seq<Msg>, log: seq<Msg>, k: nat)
    requires PickedBefore(picked, log, k) && k < |log|
    ensures PickedBefore(picked + [log[k]], log, k + 1)
  {
    var positions :| Picks(picked, log, positions, k);
    assert Picks(picked + [log[k]], log, positions + [k], k + 1);
  }

  lemma {:induction false} HandedOverGot(s: DState, target: Id, s': DState, client: Id)
    requires HandedOver(s, target, s')
    ensures client != target ==> To(s'.got, client) == To(s.got, client)
    ensures QueueOf(s.queues, client) == [] ==> To(s'.got, client) == To(s.got, client)
    ensures client == target && QueueOf(s.queues, client) != [] ==>
              To(s'.got, client) == To(s.got, client) + [QueueOf(s.queues, client)[0]]
  {
    if QueueOf(s.queues, target) == [] {
      assert s'.got == s.got;
    } else {
      ToAppend(s.got, Envelope(target, QueueOf(s.queues, target)[0]), client);
    }
  }

  lemma HandedOverQueue(s: DState, target: Id, s': DState, client: Id)
    requires HandedOver(s, target, s')
    ensures client != target ==> QueueOf(s'.queues, client) == QueueOf(s.queues, client)
    ensures client == target ==> QueueOf(s'.queues, client) == []
  {
  }

  lemma HandedOverOne(s: DState, target: Id, s': DState, client: Id)
    requires ClientInOrder(s, client) && HandedOver(s, target, s')
    ensures ClientInOrder(s', client)
  {
    var sent, got, waiting := To(s.sent, client), To(s.got, client), QueueOf(s.queues, client);
    HandedOverGot(s, target, s', client);
    HandedOverQueue(s, target, s', client);
    if client == target && waiting != [] {
      var k := |sent| - |waiting|;
      assert waiting[0] == sent[k];
      PickedNext(got, sent, k);
      PickedMore(got + [sent[k]], sent, k + 1, sent, |sent|);
    }
  }

  lemma DeadDroppedInOrder(s: DState, clock: Clock, s': DState)
    requires InOrder(s) && DeadDropped(s, clock, s')
    ensures InOrder(s')
  {
    forall client
      ensures ClientInOrder(s', client)
    {
      assert ClientInOrder(s, client);
      var sent, waiting := To(s.sent, client), QueueOf(s.queues, client);
      PickedMore(To(s.got, client), sent, |sent| - |waiting|, sent, |sent| - |QueueOf(s'.queues, client)|);
    }
  }

  lemma SameMailInOrder(s: DState, s': DState)
    requires InOrder(s) && SameMail(s, s')
    ensures InOrder(s')
  {
    forall client
      ensures ClientInOrder(s', client)
    {
      assert ClientInOrder(s, client);
    }
  }

  lemma {:induction false} AllExpiredInOrder(s: DState, order: seq<Id>, clock: Clock, s': DState)
    requires InOrder(s) && AllExpired(s, order, clock, s')
    ensures InOrder(s')
    decreases |order|
  {
    if order != [] {
      var n := |order| - 1;
      var mid := LastExpiry(s, order, clock, s');
      AllExpiredInOrder(s, order[..n], clock, mid);
      MailedInOrder(mid, [TimeoutMsg(order[n], mid.leases[order[n]])], s');
    }
  }
}
