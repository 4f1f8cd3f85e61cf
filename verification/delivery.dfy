/** A message sent and received whole does reach the application. */
module Delivery {
  import opened Types
  import opened ByteOrder
  import opened CommRaw
  import opened Framing
  import opened Channel
  import opened EndToEnd
  import opened FailedWrite
  import Cache
  import EndpointApi

  /** The run: the receiving endpoint is subscribed and started, a message is sent, its frame is received
      in two calls of recv, and the application reads its key. */
  function DeliveryRun(version: Version, order: Order, msg: Message, callback: nat, capacity: nat): seq<Action>
    requires Sendable(version, msg.key, msg.data)
  {
    var f := Frame(version, order, msg.key, msg.data);
    [Subscribe(NormalKey(msg.key), callback), App(Cache.Op.Start)]
    + (SendOf(0, msg, |f|, true) + (TakeOf(version, f) + [App(Cache.Op.Read(NormalKey(msg.key), capacity))]))
  }

  /** Where the run ends. */
  function Delivered(version: Version, sender: Order, receiver: Order, msg: Message, callback: nat, capacity: nat): System
    requires Sendable(version, msg.key, msg.data)
  {
    var (f, key) := (Frame(version, sender, msg.key, msg.data), NormalKey(msg.key));
    System(version, sender, receiver, [Sent(0, msg)], map[], None, [Release(0, msg, |f|)], f, |f|, [], true, [f],
           [Cache.Op.Start, Cache.Op.Write(key, msg.data), Cache.Op.Read(key, capacity)],
           [(key, callback)], [1], [EndpointApi.Notification(callback, Message(key, msg.data))])
  }

  lemma {:induction false} RunIsDelivered(version: Version, sender: Order, receiver: Order, msg: Message, callback: nat,
                                          capacity: nat)
    requires Expressible(version, msg) && Readable(version, msg.key, msg.data) && LooksLikeData(version, msg.data)
    ensures Run(Start(version, sender, receiver), DeliveryRun(version, sender, msg, callback, capacity))
         == Delivered(version, sender, receiver, msg, callback, capacity)
  {
    hide Frame, Sendable, Readable, Step, Receive, SendOf, TakeOf, IsFrame, Perform, Run, NormalKey, LooksLikeData;
    var s := Start(version, sender, receiver);
    var (f, key) := (Frame(version, sender, msg.key, msg.data), NormalKey(msg.key));
    var read := App(Cache.Op.Read(key, capacity));
    SetUp(s, key, callback);
    var s1 := s.(subs := [(key, callback)], ops := [Cache.Op.Start]);
    SameHeader(version, sender, msg.key, msg.data, msg.data);
    OneSend(s1, 0, msg, |f|);
    assert f[..|f|] == f && [] + f == f;
    var s2 := s1.(wire := f, calls := [Sent(0, msg)], released := [Release(0, msg, |f|)]);
    assert Perform(s1, SendOf(0, msg, |f|, true)) == s2;
    FrameReadableIff(version, sender, msg.key, msg.data);
    HeadOfWhole(version, f);
    assert s2.wire[0..] == f;
    OneFrame(s2, f);
    ReceiveFrame(version, sender, receiver, msg.key, msg.data);
    var s3 := RecvCallback(s2.(taken := |f|, packets := [f]), Some(Message(key, msg.data)));
    assert [] + [f] == [f];
    HandsOver(s2.(taken := |f|, packets := [f]), key, callback, msg.data);
    LastRead(s3, key, capacity);
    Chain(s, [Subscribe(key, callback), App(Cache.Op.Start)], SendOf(0, msg, |f|, true), TakeOf(version, f), read);
    FromStart(s, DeliveryRun(version, sender, msg, callback, capacity));
  }

  lemma {:induction false} HeadOfWhole(version: Version, f: Bytes)
    requires IsFrame(version, f)
    ensures HeadSize(version) <= |f|
  {
  }

  lemma {:induction false} SetUp(s: System, key: Key, callback: nat)
    requires s.subs == [] && s.ops == []
    ensures Perform(s, [Subscribe(key, callback), App(Cache.Op.Start)])
         == s.(subs := [(key, callback)], ops := [Cache.Op.Start])
  {
    PerformTwo(s, Subscribe(key, callback), App(Cache.Op.Start));
  }

  lemma {:induction false} HandsOver(s: System, key: Key, callback: nat, data: Bytes)
    requires s.ops == [Cache.Op.Start] && s.subs == [(key, callback)] && s.heard == [] && s.notified == []
    ensures RecvCallback(s, Some(Message(key, data)))
         == s.(ops := [Cache.Op.Start, Cache.Op.Write(key, data)], heard := [1],
               notified := [EndpointApi.Notification(callback, Message(key, data))])
  {
    var subs := [(key, callback)];
    assert subs[1..] == [];
    assert EndpointApi.Notifications(subs, Message(key, data)) == [EndpointApi.Notification(callback, Message(key, data))];
  }

  lemma {:induction false} LastRead(s: System, key: Key, capacity: nat)
    ensures Perform(s, [App(Cache.Op.Read(key, capacity))]) == s.(ops := s.ops + [Cache.Op.Read(key, capacity)])
  {
    var read := App(Cache.Op.Read(key, capacity));
    assert [read][1..] == [];
    assert Perform(s, [read]) == Step(s, read);
  }

  lemma {:induction false} Chain(s: System, a: seq<Action>, b: seq<Action>, c: seq<Action>, d: Action)
    ensures Perform(s, a + (b + (c + [d]))) == Perform(Perform(Perform(Perform(s, a), b), c), [d])
  {
    hide Perform;
    PerformConcat(s, a, b + (c + [d]));
    PerformConcat(Perform(s, a), b, c + [d]);
    PerformConcat(Perform(Perform(s, a), b), c, [d]);
  }

  /** For every message within the receiver's limits that is not mistaken for a control message, with either
      cache and a large enough buffer: recv returns exactly its data, and a subscriber of its key is called
      with it exactly once. */
  lemma {:induction false} MessageIsDelivered(version: Version, sender: Order, receiver: Order, msg: Message, callback: nat,
                                              capacity: nat, depth: nat)
    requires Expressible(version, msg) && Readable(version, msg.key, msg.data) && LooksLikeData(version, msg.data)
    requires capacity >= |msg.data| && depth >= 1
    ensures var s := Run(Start(version, sender, receiver), DeliveryRun(version, sender, msg, callback, capacity));
            var key := NormalKey(msg.key);
      && EndpointApi.Recvs(EndpointApi.NewQueue(depth), true, s.ops, key) == [msg.data]
      && EndpointApi.Recvs(EndpointApi.NEW_BUFFER, true, s.ops, key) == [msg.data]
      && Heard(s.notified, callback) == [Message(key, msg.data)]
      && !Broken(s)
  {
    hide Run, Frame, Sendable, Readable, LooksLikeData, NormalKey, EndpointApi.Recvs, DeliveryRun;
    RunIsDelivered(version, sender, receiver, msg, callback, capacity);
    var key := NormalKey(msg.key);
    EndpointApi.WrittenThenReceived(EndpointApi.NewQueue(depth), true, key, msg.data, capacity);
    EndpointApi.WrittenThenReceived(EndpointApi.NEW_BUFFER, true, key, msg.data, capacity);
    var call := EndpointApi.Notification(callback, Message(key, msg.data));
    assert [call][1..] == [];
    assert Heard([call], callback) == [Message(key, msg.data)];
  }
}
