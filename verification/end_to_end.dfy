/** What the receiving side of a connection can rely on, over every run of the machine in Channel. */
module EndToEnd {
  import opened Types
  import opened ByteOrder
  import opened PacketCodec
  import opened CommRaw
  import opened Framing
  import opened Channel
  import opened Subsequence
  import Cache
  import EndpointApi

  /** The sends whose frames were written whole, and the one being written, in lock order. */
  ghost function Sends(s: System): seq<Message>
    requires LockInv(s)
  {
    match s.lock
    case None => Done(s)
    case Some(t) =>
      assert IsWriting(s, t);
      Done(s) + [s.pcs[t].msg]
  }

  /** A state some run of the machine reaches. */
  ghost predicate Reached(version: Version, sender: Order, receiver: Order, actions: seq<Action>, s: System) {
    s == Run(Start(version, sender, receiver), actions)
  }

  /** At most one thread is inside its critical section, and frames never interleave: whatever fails,
      the wire is one piece for each send that had the lock, in lock order - its whole frame, or the part
      a failed write left - and then a prefix of the lock holder's frame. While no write has failed
      part-way it is exactly the frames of the finished sends followed by that prefix. */
  lemma {:induction false} FramesNeverInterleave(version: Version, sender: Order, receiver: Order, actions: seq<Action>, s: System)
    requires Reached(version, sender, receiver, actions, s)
    ensures LockInv(s) && s.version == version && s.sender == sender
    ensures AllSendable(version, Done(s)) && AllSendable(version, Sends(s))
    ensures forall t: nat, u: nat | IsWriting(s, t) && IsWriting(s, u) :: t == u
    ensures s.wire == WireOf(version, sender, s.released) + Partial(s)
    ensures !Broken(s) ==>
      && s.wire == Concat(FrameList(version, sender, Done(s))) + Partial(s)
      && s.wire <= Concat(FrameList(version, sender, Sends(s)))
  {
    hide Run, Frame, Sendable, Concat, WireOf, Done;
    RunKeepsInv(version, sender, receiver, actions);
    RunKeepsConfiguration(version, sender, receiver, actions);
    SendsExpressible(s);
    if !Broken(s) {
      WholeFrames(s);
      WireIsPrefix(s);
    }
  }

  lemma {:induction false} WholeFrames(s: System)
    requires LockInv(s) && !Broken(s)
    ensures AllSendable(s.version, Done(s))
    ensures WireOf(s.version, s.sender, s.released) == Concat(FrameList(s.version, s.sender, Done(s)))
  {
    hide Frame, Sendable, Concat, WireOf, Finished;
    UncutWire(s.version, s.sender, s.released);
  }

  lemma {:induction false} SendsExpressible(s: System)
    requires LockInv(s)
    ensures AllSendable(s.version, Done(s)) && AllSendable(s.version, Sends(s))
    ensures s.version.V2? ==> forall m | m in Sends(s) :: |m.data| < 0x1_0000_0000
  {
    hide Frame, Sendable, Finished;
    FinishedExpressible(s.version, s.sender, s.released);
    if s.lock.Some? {
      assert IsWriting(s, s.lock.value);
    }
  }

  lemma {:induction false} WireIsPrefix(s: System)
    requires LockInv(s) && WireInv(s) && !Broken(s)
    ensures AllSendable(s.version, Sends(s))
    ensures s.wire <= Concat(FrameList(s.version, s.sender, Sends(s)))
  {
    hide Frame, Sendable, Concat, FrameList, WireOf, Done;
    SendsExpressible(s);
    WholeFrames(s);
    match s.lock
    case None =>
    case Some(t) =>
      assert IsWriting(s, t);
      HolderFrame(s, t);
      ExtendsTo(Concat(FrameList(s.version, s.sender, Done(s))), s.pcs[t].frame, s.pcs[t].sent);
  }

  lemma {:induction false} HolderFrame(s: System, t: nat)
    requires LockInv(s) && s.lock == Some(t) && IsWriting(s, t)
    requires AllSendable(s.version, Done(s)) && AllSendable(s.version, Sends(s))
    ensures Concat(FrameList(s.version, s.sender, Sends(s)))
         == Concat(FrameList(s.version, s.sender, Done(s))) + s.pcs[t].frame
  {
    hide Frame, Sendable, Concat, Done;
    FrameListSnoc(s.version, s.sender, Done(s), s.pcs[t].msg);
    ConcatSnoc(FrameList(s.version, s.sender, Done(s)), s.pcs[t].frame);
  }

  lemma {:induction false} ExtendsTo(front: Bytes, f: Bytes, n: nat)
    requires n <= |f|
    ensures front + f[..n] <= front + f
  {
  }

  /** On every run, also after failed writes, the packets handed over and the messages passed to the
      endpoint are functions of the bytes received: chunking and EAGAIN never matter. */
  lemma {:induction false} PacketsFollowBytes(version: Version, sender: Order, receiver: Order, actions: seq<Action>, s: System)
    requires Reached(version, sender, receiver, actions, s)
    ensures s.taken <= |s.wire| && s.packets == Frames(version, s.wire[..s.taken])
    ensures Writes(s.ops) == Messages(version, receiver, Frames(version, s.wire[..s.taken]))
  {
    hide Run, Concat, Frames, IsFrame, Unfinished, WireInv, LockInv, SubscriberInv, Messages, Writes;
    RunKeepsInv(version, sender, receiver, actions);
    RunKeepsConfiguration(version, sender, receiver, actions);
    DecompositionUnique(version, s.packets, s.buf);
  }

  /** The raw packets handed to the receiver are always a prefix of the frames in lock order,
      whatever the chunking, as long as no write has failed part-way. */
  lemma {:induction false} PacketsArePrefixOfFrames(version: Version, sender: Order, receiver: Order, actions: seq<Action>, s: System)
    requires Reached(version, sender, receiver, actions, s) && !Broken(s)
    ensures LockInv(s) && AllSendable(version, Sends(s))
    ensures s.packets <= FrameList(version, sender, Sends(s))
  {
    hide Run, Frame, Sendable, Concat, Frames, FrameList, Broken, Done, Writes, Messages;
    RunKeepsInv(version, sender, receiver, actions);
    RunKeepsConfiguration(version, sender, receiver, actions);
    SendsExpressible(s);
    WireIsPrefix(s);
    PacketsFollowBytes(version, sender, receiver, actions, s);
    FramesOfPart(version, s.wire, s.taken, Concat(FrameList(version, sender, Sends(s))));
    ReadPrefixOfSent(version, sender, Sends(s));
  }

  lemma {:induction false} FramesOfPart(version: Version, wire: Bytes, taken: nat, all: Bytes)
    requires taken <= |wire| && wire <= all
    ensures Frames(version, wire[..taken]) <= Frames(version, all)
  {
    assert all == wire[..taken] + all[taken..];
    FramesMonotone(version, wire[..taken], all[taken..]);
  }

  /** When every byte has been received and no send is in progress, the packets are exactly the
      frames of all sends, provided each is within the receiver's limits. */
  lemma {:induction false} EverythingArrives(version: Version, sender: Order, receiver: Order, actions: seq<Action>, s: System)
    requires Reached(version, sender, receiver, actions, s) && !Broken(s)
    requires s.lock.None? && s.taken == |s.wire|
    requires forall m | m in Done(s) :: Readable(version, m.key, m.data)
    ensures AllSendable(version, Done(s))
    ensures s.packets == FrameList(version, sender, Done(s))
    ensures Writes(s.ops) == Surviving(version, Done(s))
  {
    hide Run, Frame, Sendable, Concat, Frames, IsFrame, Unfinished, Readable, Messages, Writes, Surviving, FrameList, Done,
         Broken, WireOf;
    FramesNeverInterleave(version, sender, receiver, actions, s);
    SendsExpressible(s);
    PacketsFollowBytes(version, sender, receiver, actions, s);
    assert s.wire[..s.taken] == s.wire;
    assert s.wire == Concat(FrameList(version, sender, Done(s)));
    UniquelyReadable(version, sender, Done(s));
    DecodedFrames(version, sender, receiver, Done(s));
  }

  // ---------------------------------------------------------------- per key

  /** The data of the messages with a given key, in order. */
  function DataOn(msgs: seq<Message>, key: Key): seq<Bytes> {
    if msgs == [] then [] else
    (if msgs[0].key == key then [msgs[0].data] else []) + DataOn(msgs[1..], key)
  }

  lemma {:induction false} DataOnCons(m: Message, msgs: seq<Message>, key: Key)
    ensures DataOn([m] + msgs, key) == DataOn([m], key) + DataOn(msgs, key)
  {
    assert ([m] + msgs)[1..] == msgs && [m][1..] == [];
  }

  lemma {:induction false} DataOnConcat(a: seq<Message>, b: seq<Message>, key: Key)
    ensures DataOn(a + b, key) == DataOn(a, key) + DataOn(b, key)
  {
    if a == [] {
      assert a + b == b;
    } else {
      hide DataOn;
      DataOnConcat(a[1..], b, key);
      DataOnCons(a[0], a[1..], key);
      DataOnCons(a[0], a[1..] + b, key);
      assert [a[0]] + a[1..] == a && [a[0]] + (a[1..] + b) == a + b;
    }
  }

  lemma {:induction false} DataOnPrefix(a: seq<Message>, b: seq<Message>, key: Key)
    requires a <= b
    ensures DataOn(a, key) <= DataOn(b, key)
  {
    DataOnConcat(a, b[|a|..], key);
    assert a + b[|a|..] == b;
  }

  lemma {:induction false} AttemptsAreWrites(ops: seq<Cache.Op>, key: Key)
    ensures Cache.Attempts(ops, key) == DataOn(Writes(ops), key)
  {
    if ops == [] {
    } else {
      AttemptsAreWrites(ops[..|ops| - 1], key);
      var last := match ops[|ops| - 1] case Write(k, d) => [Message(k, d)] case _ => [];
      DataOnConcat(Writes(ops[..|ops| - 1]), last, key);
      assert last != [] ==> last[1..] == [];
    }
  }

  /** The messages written to the receiving cache are a prefix of the surviving sends. */
  lemma {:induction false} WritesArePrefix(version: Version, sender: Order, receiver: Order, actions: seq<Action>, s: System)
    requires Reached(version, sender, receiver, actions, s) && !Broken(s)
    ensures LockInv(s) && Writes(s.ops) <= Surviving(version, Sends(s))
  {
    hide Run, Frame, Sendable, Concat, Frames, IsFrame, Messages, Writes, Surviving, FrameList, Done, Broken;
    PacketsArePrefixOfFrames(version, sender, receiver, actions, s);
    RunKeepsInv(version, sender, receiver, actions);
    RunKeepsConfiguration(version, sender, receiver, actions);
    SendsExpressible(s);
    var all := FrameList(version, sender, Sends(s));
    var rest := all[|s.packets|..];
    assert all == s.packets + rest;
    MessagesConcat(version, receiver, s.packets, rest);
    DecodedFrames(version, sender, receiver, Sends(s));
  }

  /** End to end with the queue cache: what Endpoint::recv returns to the application on a key is an
      in-order, duplicate-free selection of what was sent under that key, for every depth and every
      interleaving of senders, chunks, recv calls, starts, stops and closes. */
  lemma {:induction false} QueueEndToEnd(version: Version, sender: Order, receiver: Order, actions: seq<Action>, s: System,
                                         depth: nat, key: Key)
    requires Reached(version, sender, receiver, actions, s) && !Broken(s)
    ensures LockInv(s)
    ensures Sub(EndpointApi.Recvs(EndpointApi.NewQueue(depth), true, s.ops, key), DataOn(Surviving(version, Sends(s)), key))
  {
    hide Run, Sub, Writes, Surviving, DataOn, Broken;
    WritesArePrefix(version, sender, receiver, actions, s);
    EndpointApi.RecvsOfQueue(depth, true, s.ops, key);
    Cache.QueueReadsAreOrdered(depth, s.ops, key);
    AttemptsAreWrites(s.ops, key);
    DataOnPrefix(Writes(s.ops), Surviving(version, Sends(s)), key);
    SubOfExtension(Cache.QueueReads(depth, s.ops, key), Cache.Attempts(s.ops, key),
                   DataOn(Surviving(version, Sends(s)), key));
  }

  /** End to end with the latest-value cache: what Endpoint::recv returns on a key was sent under it,
      and successive calls never go back to an older send. */
  lemma {:induction false} BufferEndToEnd(version: Version, sender: Order, receiver: Order, actions: seq<Action>, s: System,
                                          key: Key)
    requires Reached(version, sender, receiver, actions, s) && !Broken(s)
    ensures LockInv(s)
    ensures Forward(EndpointApi.Recvs(EndpointApi.NEW_BUFFER, true, s.ops, key), DataOn(Surviving(version, Sends(s)), key))
  {
    hide Run, Forward, Writes, Surviving, DataOn, Broken;
    WritesArePrefix(version, sender, receiver, actions, s);
    EndpointApi.RecvsOfBuffer(true, s.ops, key);
    Cache.BufferReadsNeverGoBack(s.ops, key);
    AttemptsAreWrites(s.ops, key);
    DataOnPrefix(Writes(s.ops), Surviving(version, Sends(s)), key);
    ForwardExtension(Cache.BufferReads(s.ops, key), Cache.Attempts(s.ops, key),
                     DataOn(Surviving(version, Sends(s)), key));
  }

  // ---------------------------------------------------------------- subscribers

  /** The messages with a given key, in order. */
  function Only(msgs: seq<Message>, key: Key): seq<Message> {
    if msgs == [] then [] else
    Only(msgs[..|msgs| - 1], key) + if msgs[|msgs| - 1].key == key then [msgs[|msgs| - 1]] else []
  }

  /** What a callback was called with, in order. */
  function Heard(calls: seq<EndpointApi.Notification>, callback: nat): seq<Message> {
    if calls == [] then [] else
    (if calls[0].callback == callback then [calls[0].msg] else []) + Heard(calls[1..], callback)
  }

  lemma {:induction false} HeardCons(n: EndpointApi.Notification, calls: seq<EndpointApi.Notification>, callback: nat)
    ensures Heard([n] + calls, callback) == Heard([n], callback) + Heard(calls, callback)
  {
    assert ([n] + calls)[1..] == calls && [n][1..] == [];
  }

  lemma {:induction false} HeardConcat(a: seq<EndpointApi.Notification>, b: seq<EndpointApi.Notification>, callback: nat)
    ensures Heard(a + b, callback) == Heard(a, callback) + Heard(b, callback)
  {
    if a == [] {
      assert a + b == b;
    } else {
      hide Heard;
      HeardConcat(a[1..], b, callback);
      HeardCons(a[0], a[1..], callback);
      HeardCons(a[0], a[1..] + b, callback);
      assert [a[0]] + a[1..] == a && [a[0]] + (a[1..] + b) == a + b;
    }
  }

  /** How many messages had arrived before subscription number j was made. */
  function Before(heard: seq<nat>, j: nat): (n: nat)
    ensures n <= |heard|
  {
    if heard == [] then 0 else Before(heard[..|heard| - 1], j) + if heard[|heard| - 1] <= j then 1 else 0
  }

  /** Subscription number j is the callback's, and its only one. */
  predicate SubscribedOnce(subs: seq<(Key, nat)>, j: nat, key: Key, callback: nat) {
    && (j < |subs| ==> subs[j] == (key, callback))
    && (forall i | 0 <= i < |subs| && i != j :: subs[i].1 != callback)
  }

  lemma {:induction false} HeardOfOne(subs: seq<(Key, nat)>, msg: Message, j: nat, key: Key, callback: nat)
    requires SubscribedOnce(subs, j, key, callback)
    ensures Heard(EndpointApi.Notifications(subs, msg), callback) == if j < |subs| && msg.key == key then [msg] else []
  {
    if subs == [] {
    } else {
      var (front, sub) := (subs[..|subs| - 1], subs[|subs| - 1]);
      HeardOfOne(front, msg, j, key, callback);
      EndpointApi.NotificationsSnoc(front, sub, msg);
      assert front + [sub] == subs;
      HeardConcat(EndpointApi.Notifications(front, msg),
                  if sub.0 == msg.key then [EndpointApi.Notification(sub.1, msg)] else [], callback);
    }
  }

  lemma {:induction false} AllBefore(heard: seq<nat>, j: nat)
    requires forall i | 0 <= i < |heard| :: heard[i] <= j
    ensures Before(heard, j) == |heard|
  {
    if heard != [] {
      AllBefore(heard[..|heard| - 1], j);
    }
  }

  lemma {:induction false} HeardOfAll(subs: seq<(Key, nat)>, heard: seq<nat>, msgs: seq<Message>,
                                      j: nat, key: Key, callback: nat)
    requires |heard| == |msgs| && j < |subs| && SubscribedOnce(subs, j, key, callback)
    requires forall i | 0 <= i < |heard| :: heard[i] <= |subs|
    requires forall i, k | 0 <= i < k < |heard| :: heard[i] <= heard[k]
    ensures Heard(NotifyAll(subs, heard, msgs), callback) == Only(msgs[Before(heard, j)..], key)
  {
    hide Heard, EndpointApi.Notifications, Before, Only;
    if msgs == [] {
      NothingHeard(key, callback);
    } else {
      var last := |msgs| - 1;
      HeardOfAll(subs, heard[..last], msgs[..last], j, key, callback);
      HeardOfOne(subs[..heard[last]], msgs[last], j, key, callback);
      HeardConcat(NotifyAll(subs, heard[..last], msgs[..last]),
                  EndpointApi.Notifications(subs[..heard[last]], msgs[last]), callback);
      OnlyLater(heard, msgs, j, key);
    }
  }

  lemma {:induction false} NothingHeard(key: Key, callback: nat)
    ensures Heard([], callback) == [] && Only([], key) == []
  {
  }

  lemma {:induction false} OnlyLater(heard: seq<nat>, msgs: seq<Message>, j: nat, key: Key)
    requires |heard| == |msgs| > 0
    requires forall i, k | 0 <= i < k < |heard| :: heard[i] <= heard[k]
    ensures var last := |msgs| - 1;
            Only(msgs[Before(heard, j)..], key)
            == Only(msgs[..last][Before(heard[..last], j)..], key)
               + if j < heard[last] && msgs[last].key == key then [msgs[last]] else []
  {
    var last := |msgs| - 1;
    if heard[last] <= j {
      AllBefore(heard, j);
      AllBefore(heard[..last], j);
      assert msgs[|msgs|..] == [] && msgs[..last][last..] == [];
    } else {
      var later := msgs[Before(heard, j)..];
      assert later[..|later| - 1] == msgs[..last][Before(heard, j)..];
    }
  }

  /** End to end to a subscriber: unlike the caches it misses nothing. A callback subscribed once is
      called with every message on its key that arrives after its subscription, once each, in the order
      sent, whether or not the cache takes them. */
  lemma {:induction false} SubscriberEndToEnd(version: Version, sender: Order, receiver: Order, actions: seq<Action>, s: System,
                                              j: nat, key: Key, callback: nat)
    requires Reached(version, sender, receiver, actions, s)
    requires j < |s.subs| && SubscribedOnce(s.subs, j, key, callback)
    ensures var arrived := Messages(version, receiver, s.packets);
      && |s.heard| == |arrived|
      && Heard(s.notified, callback) == Only(arrived[Before(s.heard, j)..], key)
      && (!Broken(s) ==> LockInv(s) && arrived <= Surviving(version, Sends(s)))
  {
    hide Run, Writes, Messages, Surviving, Broken, NotifyAll, Before, Only, Heard, WireInv, ReaderInv;
    RunKeepsInv(version, sender, receiver, actions);
    RunKeepsConfiguration(version, sender, receiver, actions);
    HeardOfAll(s.subs, s.heard, Writes(s.ops), j, key, callback);
    if !Broken(s) {
      WritesArePrefix(version, sender, receiver, actions, s);
    }
  }

  // ---------------------------------------------------------------- ordinary names and bodies

  /** With names of at most 127 bytes without NUL, and in version 1 no body that starts with a
      control value, every send survives unchanged. */
  lemma {:induction false} AllSurvive(version: Version, sends: seq<Message>)
    requires forall m | m in sends :: IsNormal(m.key.robot) && LooksLikeData(version, m.data)
    ensures Surviving(version, sends) == sends
  {
    hide LooksLikeData, Normalise, IsNormal;
    if sends == [] {
    } else {
      AllSurvive(version, sends[1..]);
      NameFieldHoldsName(sends[0].key.robot);
    }
  }

  /** So with such names and bodies the application receives, on each key, a selection of exactly
      what was sent under that key. */
  lemma {:induction false} QueueEndToEndExact(version: Version, sender: Order, receiver: Order, actions: seq<Action>, s: System,
                                              depth: nat, key: Key)
    requires Reached(version, sender, receiver, actions, s) && !Broken(s)
    requires LockInv(s) && forall m | m in Sends(s) :: IsNormal(m.key.robot) && LooksLikeData(version, m.data)
    ensures Sub(EndpointApi.Recvs(EndpointApi.NewQueue(depth), true, s.ops, key), DataOn(Sends(s), key))
  {
    hide Run, Sub, Surviving, DataOn, LooksLikeData, IsNormal, Broken;
    QueueEndToEnd(version, sender, receiver, actions, s, depth, key);
    AllSurvive(version, Sends(s));
  }
}
