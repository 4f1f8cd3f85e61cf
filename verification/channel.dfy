/** One connection as a state machine: sender threads and their lock, the kernel's byte stream,
    the receive loop, and the receiving endpoint with its cache and subscribers. */
module Channel {
  import opened Types
  import opened ByteOrder
  import opened CommRaw
  import opened Framing
  import Cache
  import EndpointApi
  import Tcp

  /** One call of PduCommRaw::send. */
  datatype Sent = Sent(thread: nat, msg: Message)

  /** Where a sender thread is inside PduCommRaw::send, and the number of its call. */
  datatype Pc =
    | Waiting(call: nat, msg: Message)
    | Writing(call: nat, msg: Message, frame: Bytes, sent: nat)

  /** How much of its frame a call had put on the wire when it gave the lock back. */
  datatype Release = Release(call: nat, msg: Message, sent: nat)

  datatype System = System(
    version: Version,
    sender: Order,
    receiver: Order,
    calls: seq<Sent>,        // every call of send, in the order they were made
    pcs: map<nat, Pc>,       // threads inside send
    lock: Option<nat>,       // holder of send_mutex_
    released: seq<Release>,  // every send that had the lock and gave it back, in lock order
    wire: Bytes,             // all bytes the sending kernel accepted
    taken: nat,              // how many of them recv has returned
    buf: Bytes,              // the part of a frame the receive loop holds
    alive: bool,             // the receive loop has not met an invalid length
    packets: seq<Bytes>,     // raw packets handed to on_raw_data_received
    ops: seq<Cache.Op>,      // calls on the receiving cache
    subs: seq<(Key, nat)>,   // the receiving endpoint's subscriptions
    heard: seq<nat>,         // for each received message, how many subscriptions there were
    notified: seq<EndpointApi.Notification>)   // calls of its subscribers

  datatype Action =
    | Call(thread: nat, msg: Message)     // enter send and build the packet
    | Acquire(thread: nat)                // take the lock and encode
    | Push(thread: nat, count: nat)       // ::send accepts `count` bytes
    | Again(thread: nat)                  // ::send answers EAGAIN
    | Finish(thread: nat)                 // everything written: unlock, return OK
    | Fail(thread: nat)                   // ::send fails: unlock, return the error
    | Recv(count: nat)                    // recv returns up to `count` bytes
    | App(op: Cache.Op)                   // the application calls recv, or starts, stops or closes the cache
    | Subscribe(key: Key, callback: nat)  // subscribe_on_recv_callback

  function Start(version: Version, sender: Order, receiver: Order): System {
    System(version, sender, receiver, [], map[], None, [], [], 0, [], true, [], [], [], [], [])
  }

  /** Sends whose lengths the two wire formats can express (beyond them encode_v1 overflows and
      version 2 announces a truncated length). */
  predicate Expressible(version: Version, msg: Message) {
    Sendable(version, msg.key, msg.data) && (version.V2? ==> |msg.data| < 0x1_0000_0000)
  }

  predicate IsWriting(s: System, t: nat) {
    t in s.pcs && s.pcs[t].Writing?
  }

  function ReleaseOf(pc: Pc): Release
    requires pc.Writing?
  {
    Release(pc.call, pc.msg, pc.sent)
  }

  function Released(s: System, t: nat): System
    requires IsWriting(s, t)
  {
    s.(lock := None, pcs := s.pcs - {t}, released := s.released + [ReleaseOf(s.pcs[t])])
  }

  function SenderStep(s: System, a: Action): System {
    match a
    case Call(t, msg) =>
      if t in s.pcs || !Expressible(s.version, msg) then s
      else s.(calls := s.calls + [Sent(t, msg)], pcs := s.pcs[t := Waiting(|s.calls|, msg)])
    case Acquire(t) =>
      if t !in s.pcs || !s.pcs[t].Waiting? || s.lock.Some? || !Expressible(s.version, s.pcs[t].msg) then s else
      var Waiting(call, msg) := s.pcs[t];
      s.(lock := Some(t), pcs := s.pcs[t := Writing(call, msg, Frame(s.version, s.sender, msg.key, msg.data), 0)])
    case Push(t, count) =>
      if !IsWriting(s, t) then s else
      var Writing(call, msg, f, sent) := s.pcs[t];
      if count == 0 || sent + count > |f| then s
      else s.(wire := s.wire + f[sent..sent + count], pcs := s.pcs[t := Writing(call, msg, f, sent + count)])
    case Finish(t) =>
      if !IsWriting(s, t) || s.pcs[t].sent < |s.pcs[t].frame| then s
      else Released(s, t)
    case Fail(t) =>
      if !IsWriting(s, t) || s.pcs[t].sent >= |s.pcs[t].frame| then s
      else Released(s, t)
    case _ => s
  }

  /** How many bytes the next recv call of the receive loop asks for. */
  function Wanted(version: Version, buf: Bytes): nat {
    match FrameHead(version, buf)
    case Short => HeadSize(version) - |buf|
    case Bad => 0
    case Whole(n) => if n > |buf| then n - |buf| else 0
  }

  /** The receive loop after recv returned `chunk`: a finished frame is decoded and, if it is data,
      handed to recv_callback_. */
  function TakeChunk(s: System, chunk: Bytes): System {
    var buf := s.buf + chunk;
    var t := s.(taken := s.taken + |chunk|);
    match FrameHead(s.version, buf)
    case Bad => t.(buf := buf, alive := false)
    case Whole(n) =>
      if |buf| == n
      then RecvCallback(t.(buf := [], packets := s.packets + [buf]), Receive(s.version, s.receiver, buf))
      else t.(buf := buf)
    case Short => t.(buf := buf)
  }

  /** recv_callback_: a write to the cache, which may refuse it, then the subscribers. */
  function RecvCallback(s: System, received: Option<Message>): System {
    match received
    case None => s
    case Some(m) =>
      s.(ops := s.ops + [Cache.Write(m.key, m.data)],
         heard := s.heard + [|s.subs|],
         notified := s.notified + EndpointApi.Notifications(s.subs, m))
  }

  function ReceiverStep(s: System, a: Action): System {
    match a
    case Recv(count) =>
      if !s.alive || s.taken > |s.wire| then s else
      var n := Min(count, Min(Wanted(s.version, s.buf), |s.wire| - s.taken));
      if n == 0 then s else TakeChunk(s, s.wire[s.taken..s.taken + n])
    case App(op) => if op.Write? then s else s.(ops := s.ops + [op])
    case Subscribe(key, callback) => s.(subs := s.subs + [(key, callback)])
    case _ => s
  }

  predicate AtReceiver(a: Action) {
    a.Recv? || a.App? || a.Subscribe?
  }

  function Step(s: System, a: Action): System {
    if AtReceiver(a) then ReceiverStep(s, a) else SenderStep(s, a)
  }

  function Run(s: System, actions: seq<Action>): System
    decreases |actions|
  {
    if actions == [] then s
    else Step(Run(s, actions[..|actions| - 1]), actions[|actions| - 1])
  }

  // ---------------------------------------------------------------- what the sends left on the wire

  /** The bytes a send put on the wire, all of its frame, or a proper part that is not empty. */
  function Piece(version: Version, order: Order, r: Release): Bytes {
    if IsWhole(version, order, r) || IsCut(version, order, r)
    then Frame(version, order, r.msg.key, r.msg.data)[..r.sent] else []
  }

  predicate IsWhole(version: Version, order: Order, r: Release) {
    Expressible(version, r.msg) && r.sent == |Frame(version, order, r.msg.key, r.msg.data)|
  }

  predicate IsCut(version: Version, order: Order, r: Release) {
    Expressible(version, r.msg) && 0 < r.sent < |Frame(version, order, r.msg.key, r.msg.data)|
  }

  predicate IsRelease(version: Version, order: Order, r: Release) {
    Expressible(version, r.msg) && r.sent <= |Frame(version, order, r.msg.key, r.msg.data)|
  }

  /** The pieces of a list of sends, one after the other. */
  function WireOf(version: Version, order: Order, rs: seq<Release>): Bytes {
    if rs == [] then [] else WireOf(version, order, rs[..|rs| - 1]) + Piece(version, order, rs[|rs| - 1])
  }

  /** The sends whose whole frame was written. */
  function Finished(version: Version, order: Order, rs: seq<Release>): seq<Message> {
    if rs == [] then [] else
    Finished(version, order, rs[..|rs| - 1])
    + if IsWhole(version, order, rs[|rs| - 1]) then [rs[|rs| - 1].msg] else []
  }

  function Done(s: System): seq<Message> {
    Finished(s.version, s.sender, s.released)
  }

  /** Some write failed after a proper part of its frame. */
  predicate Broken(s: System) {
    exists i :: 0 <= i < |s.released| && IsCut(s.version, s.sender, s.released[i])
  }

  // ---------------------------------------------------------------- invariants

  predicate InFlight(s: System, pc: Pc) {
    && Expressible(s.version, pc.msg)
    && (pc.Writing? ==>
          pc.frame == Frame(s.version, s.sender, pc.msg.key, pc.msg.data) && pc.sent <= |pc.frame|)
  }

  /** Exactly the lock holder is writing, it is writing the frame of its message, and every send
      is expressible. */
  ghost predicate LockInv(s: System) {
    && (forall t | t in s.pcs :: InFlight(s, s.pcs[t]))
    && (forall t: nat :: IsWriting(s, t) <==> s.lock == Some(t))
    && (forall i | 0 <= i < |s.released| :: IsRelease(s.version, s.sender, s.released[i]))
  }

  /** The part of the lock holder's frame that is already on the wire. */
  ghost function Partial(s: System): Bytes {
    if s.lock.Some? && IsWriting(s, s.lock.value) && s.pcs[s.lock.value].sent <= |s.pcs[s.lock.value].frame|
    then s.pcs[s.lock.value].frame[..s.pcs[s.lock.value].sent] else []
  }

  /** The wire carries one piece for each send that gave the lock back, in lock order, then a prefix of
      the lock holder's frame, whatever failed. */
  ghost predicate WireInv(s: System) {
    s.wire == WireOf(s.version, s.sender, s.released) + Partial(s)
  }

  /** What recv has returned is the packets handed over followed by an unfinished rest. */
  ghost predicate ReaderInv(s: System) {
    && s.taken <= |s.wire|
    && s.wire[..s.taken] == Concat(s.packets) + s.buf
    && (forall p | p in s.packets :: IsFrame(s.version, p))
    && Unfinished(s.version, s.buf)
    && (s.alive <==> !FrameHead(s.version, s.buf).Bad?)
  }

  /** The writes on the cache, as messages. */
  function Writes(ops: seq<Cache.Op>): seq<Message> {
    if ops == [] then [] else
    Writes(ops[..|ops| - 1])
    + (match ops[|ops| - 1] case Write(k, d) => [Message(k, d)] case _ => [])
  }

  ghost predicate CacheInv(s: System) {
    Writes(s.ops) == Messages(s.version, s.receiver, s.packets)
  }

  /** The calls of subscribers for a list of messages, when heard[i] subscriptions existed at the i-th. */
  function NotifyAll(subs: seq<(Key, nat)>, heard: seq<nat>, msgs: seq<Message>): seq<EndpointApi.Notification>
    requires |heard| == |msgs|
  {
    if msgs == [] then [] else
    var last := |msgs| - 1;
    NotifyAll(subs, heard[..last], msgs[..last])
    + EndpointApi.Notifications(subs[..Min(heard[last], |subs|)], msgs[last])
  }

  ghost predicate SubscriberInv(s: System) {
    && |s.heard| == |Writes(s.ops)|
    && (forall i | 0 <= i < |s.heard| :: s.heard[i] <= |s.subs|)
    && (forall i, j | 0 <= i < j < |s.heard| :: s.heard[i] <= s.heard[j])
    && s.notified == NotifyAll(s.subs, s.heard, Writes(s.ops))
  }

  ghost predicate Inv(s: System) {
    LockInv(s) && WireInv(s) && ReaderInv(s) && CacheInv(s) && SubscriberInv(s)
  }

  lemma {:induction false} SenderKeepsLock(s: System, a: Action)
    requires LockInv(s)
    ensures LockInv(SenderStep(s, a))
  {
    hide Frame, Sendable;
  }

  lemma {:induction false} ConcatSnoc(fs: seq<Bytes>, f: Bytes)
    ensures Concat(fs + [f]) == Concat(fs) + f
  {
    if fs == [] {
      assert [f][1..] == [];
    } else {
      ConcatSnoc(fs[1..], f);
      assert (fs + [f])[1..] == fs[1..] + [f];
    }
  }

  lemma {:induction false} FrameListSnoc(version: Version, order: Order, sends: seq<Message>, m: Message)
    requires AllSendable(version, sends) && Sendable(version, m.key, m.data)
    ensures AllSendable(version, sends + [m])
    ensures FrameList(version, order, sends + [m]) == FrameList(version, order, sends) + [Frame(version, order, m.key, m.data)]
  {
    hide Frame, Sendable;
  }

  lemma {:induction false} SenderKeepsWire(s: System, a: Action)
    requires LockInv(s) && WireInv(s)
    ensures LockInv(SenderStep(s, a)) && WireInv(SenderStep(s, a))
  {
    hide Frame, Sendable, WireInv;
    SenderKeepsLock(s, a);
    match a
    case Push(t, count) => PushKeepsWire(s, t, count);
    case Finish(t) => ReleaseKeepsWire(s, t, a);
    case Fail(t) => ReleaseKeepsWire(s, t, a);
    case _ => OthersKeepWire(s, a);
  }

  lemma {:induction false} OthersKeepWire(s: System, a: Action)
    requires LockInv(s) && WireInv(s) && !a.Push? && !a.Finish? && !a.Fail?
    ensures WireInv(SenderStep(s, a))
  {
    hide Frame, Sendable, WireOf;
    assert s.lock.None? ==> Partial(s) == [];
  }

  lemma {:induction false} PushKeepsWire(s: System, t: nat, count: nat)
    requires LockInv(s) && WireInv(s)
    ensures WireInv(SenderStep(s, Push(t, count)))
  {
    hide Frame, Sendable, WireOf;
    if IsWriting(s, t) && count > 0 && s.pcs[t].sent + count <= |s.pcs[t].frame| {
      var f, sent := s.pcs[t].frame, s.pcs[t].sent;
      assert f[..sent + count] == f[..sent] + f[sent..sent + count];
    }
  }

  lemma {:induction false} ReleaseKeepsWire(s: System, t: nat, a: Action)
    requires LockInv(s) && WireInv(s) && (a == Finish(t) || a == Fail(t))
    ensures WireInv(SenderStep(s, a))
  {
    hide Frame, Sendable, WireOf, Piece;
    if IsWriting(s, t) && SenderStep(s, a) != s {
      var r := ReleaseOf(s.pcs[t]);
      PieceIsWritten(s, t);
      WireOfSnoc(s.version, s.sender, s.released, r);
      assert Partial(s) == s.pcs[t].frame[..r.sent];
      assert Partial(Released(s, t)) == [];
    }
  }

  lemma {:induction false} PieceIsWritten(s: System, t: nat)
    requires LockInv(s) && IsWriting(s, t)
    ensures s.pcs[t].sent <= |s.pcs[t].frame|
    ensures Piece(s.version, s.sender, ReleaseOf(s.pcs[t])) == s.pcs[t].frame[..s.pcs[t].sent]
  {
    hide Frame, Sendable;
    assert s.pcs[t].frame[..0] == [];
  }

  lemma {:induction false} WireOfSnoc(version: Version, order: Order, rs: seq<Release>, r: Release)
    ensures WireOf(version, order, rs + [r]) == WireOf(version, order, rs) + Piece(version, order, r)
  {
    hide Piece;
    assert (rs + [r])[..|rs|] == rs;
  }

  /** Without a cut frame the pieces are exactly the frames of the finished sends. */
  lemma {:induction false} UncutWire(version: Version, order: Order, rs: seq<Release>)
    requires forall i | 0 <= i < |rs| :: IsRelease(version, order, rs[i]) && !IsCut(version, order, rs[i])
    ensures AllSendable(version, Finished(version, order, rs))
    ensures WireOf(version, order, rs) == Concat(FrameList(version, order, Finished(version, order, rs)))
  {
    hide Frame, Sendable, Concat;
    if rs == [] {
      NoFrames(version, order);
    } else {
      var (front, r) := (rs[..|rs| - 1], rs[|rs| - 1]);
      UncutWire(version, order, front);
      if IsWhole(version, order, r) {
        var f := Frame(version, order, r.msg.key, r.msg.data);
        assert f[..|f|] == f;
        FrameListSnoc(version, order, Finished(version, order, front), r.msg);
        ConcatSnoc(FrameList(version, order, Finished(version, order, front)), f);
      } else {
        assert Finished(version, order, front) + [] == Finished(version, order, front);
      }
    }
  }

  lemma {:induction false} NoFrames(version: Version, order: Order)
    ensures Concat(FrameList(version, order, [])) == []
  {
  }

  lemma {:induction false} FinishedExpressible(version: Version, order: Order, rs: seq<Release>)
    ensures forall m | m in Finished(version, order, rs) :: Expressible(version, m)
  {
    hide Frame, Expressible;
    if rs != [] {
      FinishedExpressible(version, order, rs[..|rs| - 1]);
    }
  }

  /** Taking a chunk the loop asked for keeps the split of the received bytes into frames. */
  lemma {:induction false} ChunkKeepsReader(s: System, n: nat)
    requires ReaderInv(s) && n <= Wanted(s.version, s.buf) && s.taken + n <= |s.wire|
    ensures ReaderInv(TakeChunk(s, s.wire[s.taken..s.taken + n]))
  {
    hide Receive, Concat, FrameHead, Wanted, Unfinished;
    var chunk := s.wire[s.taken..s.taken + n];
    var buf := s.buf + chunk;
    assert s.wire[..s.taken + n] == s.wire[..s.taken] + chunk;
    assert s.wire[..s.taken + n] == Concat(s.packets) + buf;
    NotPastTheEnd(s.version, s.buf, chunk);
    UnfinishedByDefinition(s.version, buf);
    if FrameHead(s.version, buf) == Whole(|buf|) {
      ConcatSnoc(s.packets, buf);
      assert Concat(s.packets + [buf]) + [] == Concat(s.packets) + buf;
    }
  }

  lemma {:induction false} UnfinishedByDefinition(version: Version, buf: Bytes)
    ensures Unfinished(version, buf) <==> (FrameHead(version, buf).Whole? ==> |buf| < FrameHead(version, buf).n)
  {
  }

  lemma {:induction false} NotPastTheEnd(version: Version, buf: Bytes, chunk: Bytes)
    requires Unfinished(version, buf) && |chunk| <= Wanted(version, buf)
    ensures Unfinished(version, buf + chunk) || FrameHead(version, buf + chunk) == Whole(|buf + chunk|)
    ensures FrameHead(version, buf).Bad? ==> FrameHead(version, buf + chunk).Bad?
    ensures Unfinished(version, []) && !FrameHead(version, []).Bad?
  {
    HeadOfExtension(version, buf, chunk);
  }

  lemma {:induction false} MessagesSnoc(version: Version, order: Order, raws: seq<Bytes>, raw: Bytes)
    ensures Messages(version, order, raws + [raw]) == Messages(version, order, raws)
         + (match Receive(version, order, raw) case Some(m) => [m] case None => [])
  {
    hide Receive;
    MessagesConcat(version, order, raws, [raw]);
    assert [raw] == [raw] + [] && Messages(version, order, []) == [];
  }

  lemma {:induction false} WritesSnoc(ops: seq<Cache.Op>, op: Cache.Op)
    ensures Writes(ops + [op]) == Writes(ops) + (match op case Write(k, d) => [Message(k, d)] case _ => [])
  {
    assert (ops + [op])[..|ops|] == ops;
  }

  lemma {:induction false} ChunkKeepsCache(s: System, chunk: Bytes)
    requires CacheInv(s) && SubscriberInv(s)
    ensures CacheInv(TakeChunk(s, chunk)) && SubscriberInv(TakeChunk(s, chunk))
  {
    hide Receive, FrameHead, Messages, Writes, NotifyAll;
    var raw := s.buf + chunk;
    MessagesSnoc(s.version, s.receiver, s.packets, raw);
    match Receive(s.version, s.receiver, raw)
    case Some(m) =>
      WritesSnoc(s.ops, Cache.Write(m.key, m.data));
      NotifySnoc(s.subs, s.heard, Writes(s.ops), m);
    case None =>
  }

  lemma {:induction false} NotifySnoc(subs: seq<(Key, nat)>, heard: seq<nat>, msgs: seq<Message>, m: Message)
    requires |heard| == |msgs|
    ensures NotifyAll(subs, heard + [|subs|], msgs + [m])
         == NotifyAll(subs, heard, msgs) + EndpointApi.Notifications(subs, m)
  {
    assert (heard + [|subs|])[..|heard|] == heard && (msgs + [m])[..|msgs|] == msgs;
    assert subs[..|subs|] == subs;
  }

  /** A new subscription does not change who heard the messages before it. */
  lemma {:induction false} NotifyLater(subs: seq<(Key, nat)>, sub: (Key, nat), heard: seq<nat>, msgs: seq<Message>)
    requires |heard| == |msgs| && forall i | 0 <= i < |heard| :: heard[i] <= |subs|
    ensures NotifyAll(subs + [sub], heard, msgs) == NotifyAll(subs, heard, msgs)
  {
    if msgs != [] {
      var last := |msgs| - 1;
      NotifyLater(subs, sub, heard[..last], msgs[..last]);
      assert (subs + [sub])[..heard[last]] == subs[..heard[last]];
    }
  }

  /** Two states with the same sending side, and with the same receiving side. */
  predicate SameSender(s: System, t: System) {
    && t.version == s.version && t.sender == s.sender && t.receiver == s.receiver
    && t.calls == s.calls && t.pcs == s.pcs && t.lock == s.lock && t.released == s.released && t.wire == s.wire
  }

  predicate SameReceiver(s: System, t: System) {
    && t.version == s.version && t.sender == s.sender && t.receiver == s.receiver
    && t.taken == s.taken && t.buf == s.buf && t.alive == s.alive && t.packets == s.packets && t.ops == s.ops
    && t.subs == s.subs && t.heard == s.heard && t.notified == s.notified
    && s.wire <= t.wire
  }

  lemma {:induction false} SenderSideUntouched(s: System, t: System)
    requires LockInv(s) && WireInv(s) && SameSender(s, t)
    ensures LockInv(t) && WireInv(t)
  {
    hide Frame, Sendable, Concat;
    assert forall u: nat :: IsWriting(t, u) == IsWriting(s, u);
  }

  lemma {:induction false} ReceiverSideUntouched(s: System, t: System)
    requires ReaderInv(s) && CacheInv(s) && SubscriberInv(s) && SameReceiver(s, t)
    ensures ReaderInv(t) && CacheInv(t) && SubscriberInv(t)
  {
    hide Concat, Messages, Writes, IsFrame, Unfinished, NotifyAll;
    assert t.wire[..t.taken] == s.wire[..s.taken];
  }

  lemma {:induction false} ReceiverStepKeepsInv(s: System, a: Action)
    requires Inv(s) && AtReceiver(a)
    ensures Inv(Step(s, a))
  {
    hide LockInv, WireInv, ReaderInv, Wanted, TakeChunk, Writes, Messages, NotifyAll;
    match a
    case Recv(count) =>
      assert s.taken <= |s.wire| by { TakenInRange(s); }
      var n := Min(count, Min(Wanted(s.version, s.buf), |s.wire| - s.taken));
      if s.alive && n > 0 {
        var chunk := s.wire[s.taken..s.taken + n];
        ChunkKeepsReader(s, n);
        ChunkKeepsCache(s, chunk);
        ChunkFrame(s, chunk);
        SenderSideUntouched(s, TakeChunk(s, chunk));
      }
    case App(op) =>
      if !op.Write? {
        var t := s.(ops := s.ops + [op]);
        WritesSnoc(s.ops, op);
        assert Writes(t.ops) == Writes(s.ops) + [] == Writes(s.ops);
        SenderSideUntouched(s, t);
        ReaderIgnoresEndpoint(s, t);
      }
    case Subscribe(key, callback) =>
      var t := s.(subs := s.subs + [(key, callback)]);
      NotifyLater(s.subs, (key, callback), s.heard, Writes(s.ops));
      SenderSideUntouched(s, t);
      ReaderIgnoresEndpoint(s, t);
  }

  lemma {:induction false} TakenInRange(s: System)
    requires ReaderInv(s)
    ensures s.taken <= |s.wire|
  {
  }

  lemma {:induction false} ReaderIgnoresEndpoint(s: System, t: System)
    requires ReaderInv(s) && t == s.(ops := t.ops, subs := t.subs)
    ensures ReaderInv(t)
  {
  }

  lemma {:induction false} StepKeepsInv(s: System, a: Action)
    requires Inv(s)
    ensures Inv(Step(s, a))
  {
    hide LockInv, WireInv, ReaderInv, CacheInv, SubscriberInv, SenderStep, ReceiverStep;
    if AtReceiver(a) {
      ReceiverStepKeepsInv(s, a);
    } else {
      SenderKeepsWire(s, a);
      SenderFrame(s, a);
      ReceiverSideUntouched(s, SenderStep(s, a));
    }
  }

  lemma {:induction false} ChunkFrame(s: System, chunk: Bytes)
    ensures SameSender(s, TakeChunk(s, chunk))
  {
    hide FrameHead, Receive, EndpointApi.Notifications;
  }

  lemma {:induction false} SenderFrame(s: System, a: Action)
    ensures SameReceiver(s, SenderStep(s, a))
  {
  }

  /** Over every interleaving of any number of sender threads with partial writes, EAGAIN and
      failures, and of a receiver taking any chunks: the five invariants. */
  lemma {:induction false} RunKeepsInv(version: Version, sender: Order, receiver: Order, actions: seq<Action>)
    ensures Inv(Run(Start(version, sender, receiver), actions))
    decreases |actions|
  {
    hide Step;
    if actions == [] {
      StartInv(version, sender, receiver);
    } else {
      RunKeepsInv(version, sender, receiver, actions[..|actions| - 1]);
      StepKeepsInv(Run(Start(version, sender, receiver), actions[..|actions| - 1]), actions[|actions| - 1]);
    }
  }

  lemma {:induction false} StartInv(version: Version, sender: Order, receiver: Order)
    ensures Inv(Start(version, sender, receiver))
  {
  }

  /** The configuration never changes during a run. */
  lemma {:induction false} RunKeepsConfiguration(version: Version, sender: Order, receiver: Order, actions: seq<Action>)
    ensures var s := Run(Start(version, sender, receiver), actions);
            s.version == version && s.sender == sender && s.receiver == receiver
    decreases |actions|
  {
    hide TakeChunk;
    if actions == [] {
    } else {
      var s := Run(Start(version, sender, receiver), actions[..|actions| - 1]);
      RunKeepsConfiguration(version, sender, receiver, actions[..|actions| - 1]);
      SenderFrame(s, actions[|actions| - 1]);
      forall chunk ensures SameSender(s, TakeChunk(s, chunk)) {
        ChunkFrame(s, chunk);
      }
    }
  }

  // ---------------------------------------------------------------- write_data as steps of the machine

  /** The steps one write_data call makes when `size` bytes of the frame are left: one for each
      answer of ::send, then the return. */
  function SendActions(t: nat, script: seq<Tcp.SendResult>, size: nat): seq<Action>
    decreases |script|
  {
    if size == 0 then [Finish(t)]
    else if script == [] then [Fail(t)]
    else match script[0]
         case Took(count) =>
           var k := if count <= size then count else size;
           if count == 0 then [Fail(t)] else [Push(t, k)] + SendActions(t, script[1..], size - k)
         case SendAgain => [Again(t)] + SendActions(t, script[1..], size)
         case _ => [Fail(t)]
  }

  /** Actions performed from the first to the last. */
  function Perform(s: System, actions: seq<Action>): System
    decreases |actions|
  {
    if actions == [] then s else Perform(Step(s, actions[0]), actions[1..])
  }

  lemma {:induction false} PerformExtendsRun(s: System, earlier: seq<Action>, actions: seq<Action>)
    ensures Run(s, earlier + actions) == Perform(Run(s, earlier), actions)
    decreases |actions|
  {
    hide Step;
    if actions == [] {
      assert earlier + actions == earlier;
    } else {
      assert (earlier + [actions[0]])[..|earlier|] == earlier;
      PerformExtendsRun(s, earlier + [actions[0]], actions[1..]);
      assert earlier + [actions[0]] + actions[1..] == earlier + actions;
    }
  }

  /** From s to e, thread t put n more bytes of its frame on the wire and left send. */
  predicate Wrote(s: System, t: nat, n: nat, e: System) {
    && IsWriting(s, t)
    && var Writing(call, msg, f, sent) := s.pcs[t];
      && sent + n <= |f|
      && e.wire == s.wire + f[sent..sent + n]
      && e.lock == None && e.pcs == s.pcs - {t}
      && e.released == s.released + [Release(call, msg, sent + n)] && e.calls == s.calls
  }

  /** Every call of write_data is a path of the machine: whatever the kernel answers, the lock holder
      puts exactly the bytes on the wire that write_data does, releases the lock, and is recorded with
      that number of bytes. */
  lemma {:induction false} WriteDataIsARun(s: System, t: nat, script: seq<Tcp.SendResult>)
    requires IsWriting(s, t) && s.pcs[t].sent <= |s.pcs[t].frame|
    ensures var size := |s.pcs[t].frame| - s.pcs[t].sent;
            Wrote(s, t, Tcp.Written(script, size), Perform(s, SendActions(t, script, size)))
    decreases |script|
  {
    hide Step, Wrote;
    var size := |s.pcs[t].frame| - s.pcs[t].sent;
    if size > 0 && script != [] && script[0].Took? && script[0].count > 0 {
      var k := if script[0].count <= size then script[0].count else size;
      var more := SendActions(t, script[1..], size - k);
      PushOne(s, t, k);
      assert ([Push(t, k)] + more)[1..] == more;
      WriteDataIsARun(Step(s, Push(t, k)), t, script[1..]);
      PushThenWrote(s, t, k, Tcp.Written(script[1..], size - k), Perform(Step(s, Push(t, k)), more));
    } else if size > 0 && script != [] && script[0].SendAgain? {
      var more := SendActions(t, script[1..], size);
      AgainDoesNothing(s, t);
      assert ([Again(t)] + more)[1..] == more;
      WriteDataIsARun(s, t, script[1..]);
    } else {
      var last := if size == 0 then Finish(t) else Fail(t);
      assert SendActions(t, script, size) == [last];
      assert Perform(s, [last]) == Step(s, last);
      LastStep(s, t);
    }
  }

  lemma {:induction false} AgainDoesNothing(s: System, t: nat)
    ensures Step(s, Again(t)) == s
  {
  }

  lemma {:induction false} LastStep(s: System, t: nat)
    requires IsWriting(s, t) && s.pcs[t].sent <= |s.pcs[t].frame|
    ensures Wrote(s, t, 0, Step(s, if s.pcs[t].sent == |s.pcs[t].frame| then Finish(t) else Fail(t)))
  {
  }

  lemma {:induction false} PushThenWrote(s: System, t: nat, k: nat, n: nat, e: System)
    requires IsWriting(s, t) && 0 < k && s.pcs[t].sent + k <= |s.pcs[t].frame|
    requires Wrote(Step(s, Push(t, k)), t, n, e)
    ensures Wrote(s, t, k + n, e)
  {
    PushOne(s, t, k);
    var f, sent := s.pcs[t].frame, s.pcs[t].sent;
    assert f[sent..sent + k] + f[sent + k..sent + k + n] == f[sent..sent + k + n];
    assert s.pcs[t := Writing(s.pcs[t].call, s.pcs[t].msg, f, sent + k)] - {t} == s.pcs - {t};
  }

  lemma {:induction false} PushOne(s: System, t: nat, k: nat)
    requires IsWriting(s, t) && 0 < k && s.pcs[t].sent + k <= |s.pcs[t].frame|
    ensures var Writing(call, msg, f, sent) := s.pcs[t];
            Step(s, Push(t, k))
            == s.(wire := s.wire + f[sent..sent + k], pcs := s.pcs[t := Writing(call, msg, f, sent + k)])
  {
  }
}
