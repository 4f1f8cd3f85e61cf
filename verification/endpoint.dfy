/** Endpoint: a cache, an optional raw comm and the subscribers, behind one API. */
module EndpointApi {
  import opened Types
  import Cache

  /** The state of whichever cache create_pdu_cache made. */
  datatype CacheState = QueueCache(q: Cache.QueueState) | BufferCache(b: Cache.BufferState)

  function CacheStep(s: CacheState, op: Cache.Op): (CacheState, Cache.Outcome) {
    match s
    case QueueCache(q) => var (t, o) := Cache.QueueStep(q, op); (QueueCache(t), o)
    case BufferCache(b) => var (t, o) := Cache.BufferStep(b, op); (BufferCache(t), o)
  }

  /** One call of a subscriber's callback. */
  datatype Notification = Notification(callback: nat, msg: Message)

  /** The notifications a message causes: the callbacks subscribed to its key, in subscription order. */
  function Notifications(subs: seq<(Key, nat)>, msg: Message): seq<Notification> {
    if subs == [] then [] else
    (if subs[0].0 == msg.key then [Notification(subs[0].1, msg)] else []) + Notifications(subs[1..], msg)
  }

  lemma {:induction false} NotificationsSnoc(subs: seq<(Key, nat)>, sub: (Key, nat), msg: Message)
    ensures Notifications(subs + [sub], msg)
         == Notifications(subs, msg) + if sub.0 == msg.key then [Notification(sub.1, msg)] else []
  {
    if subs == [] {
      assert subs + [sub] == [sub];
    } else {
      NotificationsSnoc(subs[1..], sub, msg);
      assert (subs + [sub])[1..] == subs[1..] + [sub];
    }
  }

  /** How often a callback is subscribed to a key. */
  function Subscriptions(subs: seq<(Key, nat)>, key: Key, callback: nat): nat {
    if subs == [] then 0 else (if subs[0] == (key, callback) then 1 else 0) + Subscriptions(subs[1..], key, callback)
  }

  /** Each callback is called with the message itself, once per subscription to its key. */
  lemma {:induction false} OncePerSubscription(subs: seq<(Key, nat)>, msg: Message, callback: nat)
    ensures multiset(Notifications(subs, msg))[Notification(callback, msg)] == Subscriptions(subs, msg.key, callback)
    ensures forall n | n in Notifications(subs, msg) :: n.msg == msg
  {
    if subs == [] {
    } else {
      OncePerSubscription(subs[1..], msg, callback);
    }
  }

  /** What Endpoint::recv returns for a cache outcome: a failing cache read is handed to the comm,
      and a raw comm answers UNSUPPORTED with size 0. */
  function RecvOutcome(hasComm: bool, o: Cache.Outcome): Cache.Outcome {
    if o.status != OK && hasComm then Cache.Outcome(Unsupported, Some(0), []) else o
  }

  /** What a cache holds for the next read of a key. */
  function NextEntry(s: CacheState, key: Key): Option<Bytes> {
    match s
    case QueueCache(q) => if key in q.queues && q.queues[key] != [] then Some(q.queues[key][0]) else None
    case BufferCache(b) => if key in b.buffers && b.buffers[key].hasData then Some(b.buffers[key].data) else None
  }

  function IsRunning(s: CacheState): bool {
    match s case QueueCache(q) => q.running case BufferCache(b) => b.running
  }

  /** Every answer of recv. With a raw comm all failures become UNSUPPORTED with size 0; without one the
      answer is the cache's: not running, no entry with size 0, or too small a buffer with the size. */
  lemma {:induction false} RecvAnswers(s: CacheState, hasComm: bool, key: Key, capacity: nat)
    ensures var (o, next) := (RecvOutcome(hasComm, CacheStep(s, Cache.Op.Read(key, capacity)).1), NextEntry(s, key));
            var ok := IsRunning(s) && next.Some? && |next.value| <= capacity;
      && (ok ==> o == Cache.Outcome(OK, Some(|next.value|), next.value))
      && (!ok && hasComm ==> o == Cache.Outcome(Unsupported, Some(0), []))
      && (!ok && !hasComm ==>
            o == if !IsRunning(s) then Cache.Outcome(NotRunning, None, [])
                 else if next.None? then Cache.Outcome(NoEntry, Some(0), [])
                 else Cache.Outcome(NoSpace, Some(|next.value|), []))
  {
    match s
    case QueueCache(q) => Cache.ReadOutcome(q, key, capacity);
    case BufferCache(b) => Cache.BufferOutcome(b, key, capacity);
  }

  /** A caller with too small a buffer learns the needed size from recv if and only if the endpoint
      has no raw comm. The size reported is the least with which the next recv succeeds. */
  lemma {:induction false} NeededSizeReportedIff(s: CacheState, hasComm: bool, key: Key, capacity: nat, retry: nat)
    requires CacheStep(s, Cache.Op.Read(key, capacity)).1.status == NoSpace
    ensures var (t, o) := CacheStep(s, Cache.Op.Read(key, capacity));
            var answer := RecvOutcome(hasComm, o);
      && t == s
      && (answer.status == NoSpace && answer.received.Some? && answer.received.value > capacity <==> !hasComm)
      && (!hasComm ==>
            (RecvOutcome(false, CacheStep(t, Cache.Op.Read(key, retry)).1).status == OK
             <==> retry >= answer.received.value))
  {
    match s
    case QueueCache(q) =>
      Cache.ReadOutcome(q, key, capacity);
      Cache.ReadOutcome(q, key, retry);
    case BufferCache(b) =>
  }

  /** The cache after n calls of recv on a key. */
  function Drained(s: CacheState, key: Key, capacity: nat, n: nat): CacheState {
    if n == 0 then s else CacheStep(Drained(s, key, capacity, n - 1), Cache.Op.Read(key, capacity)).0
  }

  lemma {:induction false} DrainedQueue(q: Cache.QueueState, key: Key, capacity: nat, n: nat)
    requires q.running && n <= |Cache.Queued(q, key)|
    requires forall d | d in Cache.Queued(q, key) :: |d| <= capacity
    ensures var t := Drained(QueueCache(q), key, capacity, n);
            t.QueueCache? && t.q.running && Cache.Queued(t.q, key) == Cache.Queued(q, key)[n..]
  {
    if n == 0 {
    } else {
      hide Cache.Queued, Cache.QueueStep;
      DrainedQueue(q, key, capacity, n - 1);
      var front := Drained(QueueCache(q), key, capacity, n - 1);
      Cache.StepQueue(front.q, Cache.Op.Read(key, capacity), key);
    }
  }

  /** How many entries of a key are read before the one written last. */
  function Older(s: CacheState, key: Key): nat {
    if s.QueueCache? && Cache.Queued(s.q, key) != [] then |Cache.Queued(s.q, key)| - 1 else 0
  }

  /** Without a comm a sent message can be received at once: after one recv for each entry still queued
      before it, the next recv returns it, with any buffer large enough for all of them. */
  lemma {:induction false} SendThenRecv(s: CacheState, key: Key, data: Bytes, capacity: nat)
    requires s.QueueCache? ==> s.q.running && s.q.depth >= 1
    requires s.BufferCache? ==> s.b.running
    requires capacity >= |data|
    requires s.QueueCache? ==> forall d | d in Cache.Queued(s.q, key) :: |d| <= capacity
    ensures var t := CacheStep(s, Cache.Op.Write(key, data)).0;
            var later := Drained(t, key, capacity, Older(t, key));
            RecvOutcome(false, CacheStep(later, Cache.Op.Read(key, capacity)).1)
            == Cache.Outcome(OK, Some(|data|), data)
  {
    match s
    case QueueCache(q) => SendThenRecvQueue(q, key, data, capacity);
    case BufferCache(b) =>
  }

  lemma {:induction false} SendThenRecvQueue(q: Cache.QueueState, key: Key, data: Bytes, capacity: nat)
    requires q.running && q.depth >= 1 && capacity >= |data|
    requires forall d | d in Cache.Queued(q, key) :: |d| <= capacity
    ensures var t := Cache.QueueStep(q, Cache.Op.Write(key, data)).0;
            var later := Drained(QueueCache(t), key, capacity, Older(QueueCache(t), key));
            CacheStep(later, Cache.Op.Read(key, capacity)).1 == Cache.Outcome(OK, Some(|data|), data)
  {
    hide Cache.Queued, Cache.QueueStep, Drained;
    var t := Cache.QueueStep(q, Cache.Op.Write(key, data)).0;
    Cache.StepQueue(q, Cache.Op.Write(key, data), key);
    var queue := Cache.Queued(t, key);
    assert queue[|queue| - 1] == data;
    DrainedQueue(t, key, capacity, |queue| - 1);
    var later := Drained(QueueCache(t), key, capacity, |queue| - 1);
    assert Cache.Queued(later.q, key)[0] == data;
    ReadsFront(later.q, key, capacity);
  }

  lemma {:induction false} ReadsFront(q: Cache.QueueState, key: Key, capacity: nat)
    requires q.running && Cache.Queued(q, key) != [] && capacity >= |Cache.Queued(q, key)[0]|
    ensures var d := Cache.Queued(q, key)[0];
            Cache.QueueStep(q, Cache.Op.Read(key, capacity)).1 == Cache.Outcome(OK, Some(|d|), d)
  {
    Cache.ReadOutcome(q, key, capacity);
  }

  // ---------------------------------------------------------------- the endpoint over a history

  /** The cache after a history of calls. */
  function CacheRun(start: CacheState, ops: seq<Cache.Op>): CacheState {
    if ops == [] then start else CacheStep(CacheRun(start, Cache.Init(ops)), Cache.Last(ops)).0
  }

  /** What Endpoint::recv returned on a key in each call that succeeded. */
  function Recvs(start: CacheState, hasComm: bool, ops: seq<Cache.Op>, key: Key): seq<Bytes> {
    if ops == [] then [] else
    var front := Recvs(start, hasComm, Cache.Init(ops), key);
    var o := RecvOutcome(hasComm, CacheStep(CacheRun(start, Cache.Init(ops)), Cache.Last(ops)).1);
    if Cache.Last(ops).Read? && Cache.Last(ops).key == key && o.status == OK then front + [o.copied] else front
  }

  function NewQueue(depth: nat): CacheState {
    QueueCache(Cache.QueueState(depth, map[], false))
  }

  const NEW_BUFFER: CacheState := BufferCache(Cache.BufferState(map[], false))

  /** A running cache that is written and then read with a large enough buffer hands over the data. */
  lemma {:induction false} WrittenThenReceived(start: CacheState, hasComm: bool, key: Key, data: Bytes, capacity: nat)
    requires start == NEW_BUFFER || exists depth :: depth >= 1 && start == NewQueue(depth)
    requires capacity >= |data|
    ensures Recvs(start, hasComm, [Cache.Op.Start, Cache.Op.Write(key, data), Cache.Op.Read(key, capacity)], key) == [data]
  {
    var (h1, h2) := ([Cache.Op.Start], [Cache.Op.Start, Cache.Op.Write(key, data)]);
    var h3 := [Cache.Op.Start, Cache.Op.Write(key, data), Cache.Op.Read(key, capacity)];
    assert Cache.Init(h3) == h2 && Cache.Init(h2) == h1 && Cache.Init(h1) == [];
    assert CacheRun(start, []) == start && Recvs(start, hasComm, [], key) == [];
    assert CacheRun(start, h1) == CacheStep(start, Cache.Op.Start).0 && Recvs(start, hasComm, h1, key) == [];
    assert Recvs(start, hasComm, h2, key) == [];
  }

  /** recv passes exactly the successful reads of the cache to the caller, with or without a comm. */
  lemma {:induction false} RecvsOfQueue(depth: nat, hasComm: bool, ops: seq<Cache.Op>, key: Key)
    ensures CacheRun(NewQueue(depth), ops) == QueueCache(Cache.QueueRun(depth, ops))
    ensures Recvs(NewQueue(depth), hasComm, ops, key) == Cache.QueueReads(depth, ops, key)
  {
    hide Cache.QueueStep;
    if ops != [] {
      RecvsOfQueue(depth, hasComm, Cache.Init(ops), key);
    }
  }

  lemma {:induction false} RecvsOfBuffer(hasComm: bool, ops: seq<Cache.Op>, key: Key)
    ensures CacheRun(NEW_BUFFER, ops) == BufferCache(Cache.BufferRun(ops))
    ensures Recvs(NEW_BUFFER, hasComm, ops, key) == Cache.BufferReads(ops, key)
  {
    hide Cache.BufferStep;
    if ops != [] {
      RecvsOfBuffer(hasComm, Cache.Init(ops), key);
    }
  }

  /** The comm as the endpoint sees it: what was sent, and the results of its calls. */
  class Comm {
    var sent: seq<Message>
    var sendStatus: Status
    var startStatus: Status
    var stopStatus: Status

    constructor (sendStatus: Status, startStatus: Status, stopStatus: Status)
      ensures sent == []
      ensures this.sendStatus == sendStatus && this.startStatus == startStatus && this.stopStatus == stopStatus
    {
      this.sendStatus, this.startStatus, this.stopStatus := sendStatus, startStatus, stopStatus;
      sent := [];
    }

    method Send(key: Key, data: Bytes) returns (err: Status)
      modifies this`sent
      ensures err == sendStatus && sent == old(sent) + [Message(key, data)]
    {
      sent := sent + [Message(key, data)];
      return sendStatus;
    }

    /** PduCommRaw::recv. */
    method Recv() returns (err: Status, received: nat)
      ensures err == Unsupported && received == 0
    {
      return Unsupported, 0;
    }
  }

  class Endpoint {
    const queue: Cache.PduLatestQueue?
    const latest: Cache.PduLatestBuffer?
    var comm: Comm?
    var subs: seq<(Key, nat)>
    var notified: seq<Notification>

    constructor (queue: Cache.PduLatestQueue?, latest: Cache.PduLatestBuffer?, comm: Comm?)
      ensures this.queue == queue && this.latest == latest && this.comm == comm
      ensures subs == [] && notified == []
    {
      this.queue, this.latest, this.comm := queue, latest, comm;
      subs, notified := [], [];
    }

    /** open succeeded: the endpoint owns exactly one cache. */
    ghost predicate HasCache() {
      (queue != null) != (latest != null)
    }

    ghost function CacheNow(): CacheState
      requires HasCache()
      reads queue, latest
    {
      if queue != null then QueueCache(queue.State()) else BufferCache(latest.State())
    }

    method SubscribeOnRecvCallback(key: Key, callback: nat)
      modifies this`subs
      ensures subs == old(subs) + [(key, callback)]
    {
      subs := subs + [(key, callback)];
    }

    method CacheWrite(key: Key, data: Bytes) returns (err: Status)
      requires HasCache()
      modifies queue, latest
      ensures CacheNow() == CacheStep(old(CacheNow()), Cache.Op.Write(key, data)).0
      ensures err == CacheStep(old(CacheNow()), Cache.Op.Write(key, data)).1.status
    {
      if queue != null {
        err := queue.Write(key, data);
      } else {
        err := latest.Write(key, data);
      }
    }

    /** notify_subscribers_: collect the matching callbacks under the lock, then call each. */
    method NotifySubscribers(key: Key, data: Bytes)
      modifies this`notified
      ensures notified == old(notified) + Notifications(subs, Message(key, data))
    {
      var targets: seq<nat> := [];
      ghost var msg := Message(key, data);
      var i := 0;
      while i < |subs|
        invariant 0 <= i <= |subs|
        invariant Calls(targets, msg) == Notifications(subs[..i], msg)
        invariant notified == old(notified)
      {
        NotificationsSnoc(subs[..i], subs[i], msg);
        assert subs[..i + 1] == subs[..i] + [subs[i]];
        if subs[i].0.robot == key.robot && subs[i].0.channel == key.channel {
          targets := targets + [subs[i].1];
          assert targets[..|targets| - 1] + [targets[|targets| - 1]] == targets;
        }
        i := i + 1;
      }
      assert subs[..i] == subs;
      if targets == [] {
        return;
      }
      var j := 0;
      assert targets[..j] == [];
      while j < |targets|
        invariant 0 <= j <= |targets|
        invariant notified == old(notified) + Calls(targets[..j], msg)
      {
        notified := notified + [Notification(targets[j], Message(key, data))];
        assert targets[..j + 1][..j] == targets[..j];
        j := j + 1;
      }
      assert targets[..j] == targets;
    }

    /** send by resolved key. */
    method Send(key: Key, data: Bytes) returns (err: Status)
      requires HasCache()
      modifies comm, queue, latest, this`notified
      ensures comm != null ==>
        && comm.sent == old(comm.sent) + [Message(key, data)] && err == old(comm.sendStatus)
        && CacheNow() == old(CacheNow()) && notified == old(notified)
      ensures comm == null ==>
        var (t, o) := CacheStep(old(CacheNow()), Cache.Op.Write(key, data));
        && CacheNow() == t && err == o.status
        && notified == old(notified) + if err == OK then Notifications(subs, Message(key, data)) else []
    {
      if comm != null {
        err := comm.Send(key, data);
        return;
      }
      err := CacheWrite(key, data);
      if err != OK {
        return;
      }
      NotifySubscribers(key, data);
    }

    /** recv by resolved key. */
    method Recv(key: Key, buffer: array<byte>) returns (err: Status, received: Option<nat>)
      requires HasCache()
      modifies queue, latest, buffer
      ensures var (t, o) := CacheStep(old(CacheNow()), Cache.Op.Read(key, buffer.Length));
              && CacheNow() == t
              && err == RecvOutcome(comm != null, o).status && received == RecvOutcome(comm != null, o).received
              && buffer[..] == o.copied + old(buffer[..])[|o.copied|..]
    {
      if queue != null {
        err, received := queue.Read(key, buffer);
      } else {
        err, received := latest.Read(key, buffer);
      }
      if err == OK {
        return;
      }
      if comm != null {
        var size;
        err, size := comm.Recv();
        received := Some(size);
      }
    }

    /** recv_callback_: subscribers are told even when the cache refuses the write. */
    method RecvCallback(key: Key, data: Bytes)
      modifies queue, latest, this`notified
      requires queue == null || latest == null
      ensures !HasCache() ==> notified == old(notified)
      ensures HasCache() ==>
        && CacheNow() == CacheStep(old(CacheNow()), Cache.Op.Write(key, data)).0
        && notified == old(notified) + Notifications(subs, Message(key, data))
    {
      if queue == null && latest == null {
        return;
      }
      var _ := CacheWrite(key, data);
      NotifySubscribers(key, data);
    }

    method Start() returns (err: Status)
      requires HasCache()
      modifies queue, latest
      ensures CacheNow() == CacheStep(old(CacheNow()), Cache.Op.Start).0
      ensures err == if comm == null then OK else comm.startStatus
    {
      if queue != null {
        err := queue.Start();
      } else {
        err := latest.Start();
      }
      if err != OK {
        return;
      }
      if comm != null {
        return comm.startStatus;
      }
    }

    /** stop: the cache is stopped even when stopping the comm fails. */
    method Stop() returns (err: Status)
      requires HasCache()
      modifies queue, latest
      ensures CacheNow() == CacheStep(old(CacheNow()), Cache.Op.Stop).0
      ensures err == if comm == null then OK else comm.stopStatus
    {
      err := OK;
      if comm != null {
        err := comm.stopStatus;
      }
      var cacheErr;
      if queue != null {
        cacheErr := queue.Stop();
      } else {
        cacheErr := latest.Stop();
      }
      if err == OK {
        err := cacheErr;
      }
    }
  }

  /** The notifications of a list of callbacks for one message. */
  function Calls(callbacks: seq<nat>, msg: Message): (n: seq<Notification>)
    ensures |n| == |callbacks|
  {
    if callbacks == [] then []
    else Calls(callbacks[..|callbacks| - 1], msg) + [Notification(callbacks[|callbacks| - 1], msg)]
  }
}
