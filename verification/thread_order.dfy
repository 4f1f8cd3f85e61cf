/** Which calls of send the received messages come from: calls of one thread arrive in the order made. */
module ThreadOrder {
  import opened Types
  import opened ByteOrder
  import opened CommRaw
  import opened Framing
  import opened Channel
  import opened EndToEnd
  import opened Subsequence
  import Cache
  import EndpointApi

  /** Every send that has or had the lock knows its call, and a thread's calls get the lock in the
      order the thread made them. */
  ghost predicate CallInv(s: System) {
    && (forall t | t in s.pcs :: s.pcs[t].call < |s.calls| && s.calls[s.pcs[t].call] == Sent(t, s.pcs[t].msg))
    && (forall i | 0 <= i < |s.released| ::
          s.released[i].call < |s.calls| && s.calls[s.released[i].call].msg == s.released[i].msg)
    && (forall i, j | 0 <= i < j < |s.released| ::
          SameThread(s.calls, s.released[i].call, s.released[j].call) ==> s.released[i].call < s.released[j].call)
    && (forall t, i | t in s.pcs && 0 <= i < |s.released| ::
          SameThread(s.calls, s.released[i].call, s.pcs[t].call) ==> s.released[i].call < s.pcs[t].call)
  }

  predicate SameThread(calls: seq<Sent>, a: nat, b: nat) {
    a < |calls| && b < |calls| && calls[a].thread == calls[b].thread
  }

  lemma {:induction false} CallKeepsCalls(s: System, t: nat, msg: Message)
    requires CallInv(s)
    ensures CallInv(Step(s, Call(t, msg)))
  {
    hide Expressible;
  }

  /** A step that keeps the call numbers of the threads inside send. */
  lemma {:induction false} SameCallsKept(s: System, e: System)
    requires CallInv(s) && e.calls == s.calls && e.released == s.released
    requires e.pcs.Keys == s.pcs.Keys
    requires forall t | t in s.pcs :: e.pcs[t].call == s.pcs[t].call && e.pcs[t].msg == s.pcs[t].msg
    ensures CallInv(e)
  {
  }

  lemma {:induction false} ReleaseKeepsCalls(s: System, t: nat)
    requires CallInv(s) && IsWriting(s, t)
    ensures CallInv(Released(s, t))
  {
    var e := Released(s, t);
    forall u | u in e.pcs
      ensures !SameThread(e.calls, s.pcs[t].call, e.pcs[u].call)
    {
    }
  }

  lemma {:induction false} StepKeepsCalls(s: System, a: Action)
    requires CallInv(s)
    ensures CallInv(Step(s, a))
  {
    hide CallInv, Expressible, Frame, TakeChunk, Receive;
    match a
    case Call(t, msg) => CallKeepsCalls(s, t, msg);
    case Finish(t) => if IsWriting(s, t) { ReleaseKeepsCalls(s, t); }
    case Fail(t) => if IsWriting(s, t) { ReleaseKeepsCalls(s, t); }
    case Recv(count) =>
      forall chunk ensures SameSender(s, TakeChunk(s, chunk)) { ChunkFrame(s, chunk); }
      SameCallsKept(s, Step(s, a));
    case _ => SameCallsKept(s, Step(s, a));
  }

  lemma {:induction false} RunKeepsCalls(version: Version, sender: Order, receiver: Order, actions: seq<Action>)
    ensures CallInv(Run(Start(version, sender, receiver), actions))
  {
    if actions == [] {
    } else {
      hide CallInv, Step;
      RunKeepsCalls(version, sender, receiver, actions[..|actions| - 1]);
      StepKeepsCalls(Run(Start(version, sender, receiver), actions[..|actions| - 1]), actions[|actions| - 1]);
    }
  }

  // ---------------------------------------------------------------- from messages back to calls

  /** The calls behind Finished. */
  function FinishedCalls(version: Version, order: Order, rs: seq<Release>): seq<nat> {
    if rs == [] then [] else
    FinishedCalls(version, order, rs[..|rs| - 1])
    + if IsWhole(version, order, rs[|rs| - 1]) then [rs[|rs| - 1].call] else []
  }

  /** The calls behind Sends. */
  ghost function SendCalls(s: System): seq<nat>
    requires LockInv(s)
  {
    var done := FinishedCalls(s.version, s.sender, s.released);
    match s.lock
    case None => done
    case Some(t) =>
      assert IsWriting(s, t);
      done + [s.pcs[t].call]
  }

  /** `from` names the calls that made `sends`, each at most once, those of one thread in order. */
  ghost predicate MadeBy(calls: seq<Sent>, from: seq<nat>, sends: seq<Message>) {
    && |from| == |sends|
    && (forall i | 0 <= i < |from| :: from[i] < |calls| && calls[from[i]].msg == sends[i])
    && (forall i, j | 0 <= i < j < |from| :: SameThread(calls, from[i], from[j]) ==> from[i] < from[j])
  }

  lemma {:induction false} MadeBySnoc(calls: seq<Sent>, from: seq<nat>, sends: seq<Message>, c: nat)
    requires MadeBy(calls, from, sends) && c < |calls|
    requires forall d | d in from :: SameThread(calls, d, c) ==> d < c
    ensures MadeBy(calls, from + [c], sends + [calls[c].msg])
  {
    assert forall k | 0 <= k < |from| :: from[k] in from;
  }

  ghost predicate CalledWithin(from: seq<nat>, rs: seq<Release>) {
    forall c | c in from :: exists i :: 0 <= i < |rs| && rs[i].call == c
  }

  lemma {:induction false} CalledLater(from: seq<nat>, rs: seq<Release>, r: Release)
    requires CalledWithin(from, rs)
    ensures CalledWithin(from, rs + [r]) && CalledWithin(from + [r.call], rs + [r])
  {
    assert forall i | 0 <= i < |rs| :: (rs + [r])[i] == rs[i];
    assert (rs + [r])[|rs|].call == r.call;
  }

  lemma {:induction false} FinishedMadeBy(s: System, n: nat)
    requires CallInv(s) && n <= |s.released|
    ensures var (rs, from) := (s.released[..n], FinishedCalls(s.version, s.sender, s.released[..n]));
            MadeBy(s.calls, from, Finished(s.version, s.sender, rs)) && CalledWithin(from, rs)
  {
    hide IsWhole, MadeBy, CalledWithin;
    if n == 0 {
      NoneMade(s.calls);
    } else {
      var (rs, r) := (s.released[..n - 1], s.released[n - 1]);
      FinishedMadeBy(s, n - 1);
      assert s.released[..n] == rs + [r] && s.released[..n][..n - 1] == rs;
      var front := FinishedCalls(s.version, s.sender, rs);
      CalledLater(front, rs, r);
      if IsWhole(s.version, s.sender, r) {
        EarlierCalls(s, front, n - 1);
        MadeBySnoc(s.calls, front, Finished(s.version, s.sender, rs), r.call);
      } else {
        assert front + [] == front && Finished(s.version, s.sender, rs) + [] == Finished(s.version, s.sender, rs);
      }
    }
  }

  lemma {:induction false} NoneMade(calls: seq<Sent>)
    ensures MadeBy(calls, [], []) && CalledWithin([], [])
  {
  }

  lemma {:induction false} EarlierCalls(s: System, from: seq<nat>, n: nat)
    requires CallInv(s) && n < |s.released| && CalledWithin(from, s.released[..n])
    ensures forall d | d in from :: SameThread(s.calls, d, s.released[n].call) ==> d < s.released[n].call
  {
    forall d | d in from && SameThread(s.calls, d, s.released[n].call)
      ensures d < s.released[n].call
    {
      var i :| 0 <= i < n && s.released[..n][i].call == d;
      assert s.released[i].call == d;
    }
  }

  lemma {:induction false} HolderIsLast(s: System, from: seq<nat>, t: nat)
    requires CallInv(s) && t in s.pcs && CalledWithin(from, s.released)
    ensures forall d | d in from :: SameThread(s.calls, d, s.pcs[t].call) ==> d < s.pcs[t].call
  {
  }

  lemma {:induction false} SendsMadeBy(s: System)
    requires LockInv(s) && CallInv(s)
    ensures MadeBy(s.calls, SendCalls(s), Sends(s))
  {
    hide IsWhole, Finished, FinishedCalls, MadeBy, CalledWithin, InFlight, IsRelease;
    FinishedMadeBy(s, |s.released|);
    assert s.released[..|s.released|] == s.released;
    if s.lock.Some? {
      var t := s.lock.value;
      assert IsWriting(s, t);
      var done := FinishedCalls(s.version, s.sender, s.released);
      HolderIsLast(s, done, t);
      MadeBySnoc(s.calls, done, Done(s), s.pcs[t].call);
    }
  }

  /** The positions in a list of sends of those that arrive under a key. */
  function Places(version: Version, sends: seq<Message>, key: Key): seq<nat> {
    if sends == [] then [] else
    var last := |sends| - 1;
    Places(version, sends[..last], key) + if Arrives(version, sends[last], key) then [last] else []
  }

  predicate Arrives(version: Version, m: Message, key: Key) {
    LooksLikeData(version, m.data) && NormalKey(m.key) == key
  }

  lemma {:induction false} PlacesOfArrivals(version: Version, sends: seq<Message>, key: Key)
    ensures var (at, data) := (Places(version, sends, key), DataOn(Surviving(version, sends), key));
      && |at| == |data|
      && (forall k | 0 <= k < |at| :: at[k] < |sends| && Arrives(version, sends[at[k]], key) && sends[at[k]].data == data[k])
      && (forall j, k | 0 <= j < k < |at| :: at[j] < at[k])
  {
    hide LooksLikeData, NormalKey, DataOn, Surviving;
    if sends == [] {
      NothingArrives(version, key);
    } else {
      var last := |sends| - 1;
      PlacesOfArrivals(version, sends[..last], key);
      ArrivalsSnoc(version, sends[..last], sends[last], key);
      assert sends[..last] + [sends[last]] == sends;
    }
  }

  lemma {:induction false} NothingArrives(version: Version, key: Key)
    ensures DataOn(Surviving(version, []), key) == []
  {
  }

  lemma {:induction false} ArrivalsSnoc(version: Version, sends: seq<Message>, m: Message, key: Key)
    ensures DataOn(Surviving(version, sends + [m]), key)
         == DataOn(Surviving(version, sends), key) + if Arrives(version, m, key) then [m.data] else []
  {
    hide LooksLikeData, NormalKey;
    SurvivingSnoc(version, sends, m);
    var one := if LooksLikeData(version, m.data) then [Message(NormalKey(m.key), m.data)] else [];
    DataOnConcat(Surviving(version, sends), one, key);
    assert one != [] ==> one[1..] == [];
  }

  lemma {:induction false} SurvivingSnoc(version: Version, sends: seq<Message>, m: Message)
    ensures Surviving(version, sends + [m]) == Surviving(version, sends)
         + if LooksLikeData(version, m.data) then [Message(NormalKey(m.key), m.data)] else []
  {
    hide LooksLikeData, NormalKey;
    if sends == [] {
      assert [] + [m] == [m] && [m][1..] == [];
    } else {
      SurvivingSnoc(version, sends[1..], m);
      assert (sends + [m])[1..] == sends[1..] + [m];
    }
  }

  // ---------------------------------------------------------------- what arrives, call by call

  /** `from` names, for each received value, the call of send it comes from. */
  ghost predicate ComesFrom(s: System, key: Key, values: seq<Bytes>, from: seq<nat>) {
    && |from| == |values|
    && forall i | 0 <= i < |values| ::
         from[i] < |s.calls| && s.calls[from[i]].msg.data == values[i] && NormalKey(s.calls[from[i]].msg.key) == key
  }

  /** No call is named twice, and calls of one thread are named in the order they were made. */
  ghost predicate InCallOrder(s: System, from: seq<nat>) {
    forall i, j | 0 <= i < j < |from| ::
      from[i] != from[j] && (SameThread(s.calls, from[i], from[j]) ==> from[i] < from[j])
  }

  /** A call may be named again, but no thread's calls are named out of order. */
  ghost predicate NeverBack(s: System, from: seq<nat>) {
    forall i, j | 0 <= i < j < |from| :: SameThread(s.calls, from[i], from[j]) ==> from[i] <= from[j]
  }

  /** Values picked at `at` among the arrivals, traced back to their calls. */
  lemma {:induction false} TraceBack(s: System, key: Key, values: seq<Bytes>, at: seq<nat>) returns (from: seq<nat>)
    requires LockInv(s) && CallInv(s)
    requires var data := DataOn(Surviving(s.version, Sends(s)), key);
             |at| == |values| && forall i | 0 <= i < |values| :: at[i] < |data| && data[at[i]] == values[i]
    ensures ComesFrom(s, key, values, from)
    ensures (forall i, j | 0 <= i < j < |at| :: at[i] < at[j]) ==> InCallOrder(s, from)
    ensures (forall i, j | 0 <= i < j < |at| :: at[i] <= at[j]) ==> NeverBack(s, from)
  {
    hide CallInv, LockInv, LooksLikeData, NormalKey, Surviving, DataOn, Places, Sends, SendCalls;
    SendsMadeBy(s);
    PlacesOfArrivals(s.version, Sends(s), key);
    var (places, calls) := (Places(s.version, Sends(s), key), SendCalls(s));
    from := seq(|at|, i requires 0 <= i < |at| => calls[places[at[i]]]);
    InOrder(s.calls, calls, Sends(s));
  }

  lemma {:induction false} InOrder(calls: seq<Sent>, from: seq<nat>, sends: seq<Message>)
    requires MadeBy(calls, from, sends)
    ensures forall i, j | 0 <= i < j < |from| ::
      from[i] != from[j] && (SameThread(calls, from[i], from[j]) ==> from[i] < from[j])
  {
    forall i, j | 0 <= i < j < |from|
      ensures from[i] != from[j]
    {
      if from[i] == from[j] {
        assert SameThread(calls, from[i], from[j]);
      }
    }
  }

  /** With the queue cache each value recv returns comes from its own call of send on that key, and the
      values that come from one sender thread are received in the order that thread sent them. */
  lemma {:induction false} QueueKeepsThreadOrder(version: Version, sender: Order, receiver: Order, actions: seq<Action>, s: System,
                                                 depth: nat, key: Key) returns (from: seq<nat>)
    requires Reached(version, sender, receiver, actions, s) && !Broken(s)
    ensures ComesFrom(s, key, EndpointApi.Recvs(EndpointApi.NewQueue(depth), true, s.ops, key), from)
    ensures InCallOrder(s, from)
  {
    hide Run, Sub, DataOn, Surviving, CallInv, LockInv, Broken, ComesFrom, InCallOrder, NeverBack, Sends;
    RunKeepsConfiguration(version, sender, receiver, actions);
    RunKeepsCalls(version, sender, receiver, actions);
    QueueEndToEnd(version, sender, receiver, actions, s, depth, key);
    var values := EndpointApi.Recvs(EndpointApi.NewQueue(depth), true, s.ops, key);
    var at := Positions(values, DataOn(Surviving(version, Sends(s)), key));
    from := TraceBack(s, key, values, at);
  }

  /** With the latest-value cache a value may be received again, but no thread's sends out of order. */
  lemma {:induction false} BufferKeepsThreadOrder(version: Version, sender: Order, receiver: Order, actions: seq<Action>, s: System,
                                                  key: Key) returns (from: seq<nat>)
    requires Reached(version, sender, receiver, actions, s) && !Broken(s)
    ensures ComesFrom(s, key, EndpointApi.Recvs(EndpointApi.NEW_BUFFER, true, s.ops, key), from)
    ensures NeverBack(s, from)
  {
    hide Run, Forward, DataOn, Surviving, CallInv, LockInv, Broken, ComesFrom, InCallOrder, NeverBack, Sends;
    RunKeepsConfiguration(version, sender, receiver, actions);
    RunKeepsCalls(version, sender, receiver, actions);
    BufferEndToEnd(version, sender, receiver, actions, s, key);
    var values := EndpointApi.Recvs(EndpointApi.NEW_BUFFER, true, s.ops, key);
    var at := ForwardPositions(values, DataOn(Surviving(version, Sends(s)), key));
    from := TraceBack(s, key, values, at);
  }

  // ---------------------------------------------------------------- subscribers

  function DataOf(msgs: seq<Message>): (d: seq<Bytes>)
    ensures |d| == |msgs| && forall i | 0 <= i < |msgs| :: d[i] == msgs[i].data
  {
    seq(|msgs|, i requires 0 <= i < |msgs| => msgs[i].data)
  }

  lemma {:induction false} OnlyIsDataOn(msgs: seq<Message>, key: Key)
    ensures DataOf(Only(msgs, key)) == DataOn(msgs, key)
    ensures forall m | m in Only(msgs, key) :: m.key == key
  {
    if msgs == [] {
    } else {
      hide DataOn;
      var (front, last) := (msgs[..|msgs| - 1], msgs[|msgs| - 1]);
      OnlyIsDataOn(front, key);
      DataOnConcat(front, [last], key);
      DataOnOne(last, key);
      assert front + [last] == msgs;
    }
  }

  lemma {:induction false} DataOnOne(m: Message, key: Key)
    ensures DataOn([m], key) == if m.key == key then [m.data] else []
  {
    assert [m][1..] == [];
  }

  /** A callback subscribed once hears one call of send after the other on its key, those of one sender
      thread in the order that thread sent them. */
  lemma {:induction false} SubscriberKeepsThreadOrder(version: Version, sender: Order, receiver: Order, actions: seq<Action>,
                                                      s: System, j: nat, key: Key, callback: nat) returns (from: seq<nat>)
    requires Reached(version, sender, receiver, actions, s) && !Broken(s)
    requires j < |s.subs| && SubscribedOnce(s.subs, j, key, callback)
    ensures ComesFrom(s, key, DataOf(Heard(s.notified, callback)), from)
    ensures InCallOrder(s, from)
  {
    hide Run, DataOn, Surviving, CallInv, LockInv, Broken, ComesFrom, InCallOrder, NeverBack, Sends, Heard, Only, Before,
         Messages, SubscribedOnce;
    RunKeepsConfiguration(version, sender, receiver, actions);
    RunKeepsCalls(version, sender, receiver, actions);
    SubscriberEndToEnd(version, sender, receiver, actions, s, j, key, callback);
    var arrived := Messages(version, receiver, s.packets);
    var n := Before(s.heard, j);
    OnlyIsDataOn(arrived[n..], key);
    DataOnConcat(arrived[..n], arrived[n..], key);
    assert arrived[..n] + arrived[n..] == arrived;
    DataOnPrefix(arrived, Surviving(version, Sends(s)), key);
    var values := DataOf(Heard(s.notified, callback));
    var skip := |DataOn(arrived[..n], key)|;
    from := TraceBack(s, key, values, seq(|values|, i requires 0 <= i < |values| => skip + i));
  }
}
