/** What a write that fails part-way does to the rest of its connection. */
module FailedWrite {
  import opened Types
  import opened ByteOrder
  import opened PacketCodec
  import opened CommRaw
  import opened Framing
  import opened Channel
  import opened EndToEnd
  import Cache

  /** A frame cut anywhere, also inside its header, and whatever follows it: the frame is delivered if and
      only if the next bytes happen to be the missing ones. If any frame is delivered there, it is the cut
      one continued by at least one byte of what follows, and the rest is read as if it stood alone. */
  lemma {:induction false} CutFrameSwallowsNext(version: Version, f: Bytes, sent: nat, next: Bytes)
    requires IsFrame(version, f) && 0 < sent < |f|
    ensures var fs := Frames(version, f[..sent] + next);
      && (fs != [] && fs[0] == f <==> f[sent..] <= next)
      && (fs != [] ==>
            var swallowed := |fs[0]| - sent;
            && 0 < swallowed <= |next|
            && fs == [f[..sent] + next[..swallowed]] + Frames(version, next[swallowed..]))
  {
    hide ReadLe32;
    var s := f[..sent] + next;
    var fs := Frames(version, s);
    assert f == f[..sent] + f[sent..];
    if f[sent..] <= next {
      assert s == f + next[|f| - sent..];
      FramesStep(version, f, next[|f| - sent..]);
    }
    if fs != [] {
      var n := FrameHead(version, s).n;
      HeadOfExtension(version, f[..sent], f[sent..]);
      HeadOfExtension(version, f[..sent], next);
      assert s[..n] == f[..sent] + next[..n - sent];
      assert s[n..] == next[n - sent..];
      if fs[0] == f {
        assert f[sent..] == s[sent..][..n - sent];
      }
    }
  }

  /** The same on every run: once the first frame cut short has been received, the packets are the whole
      frames before it and then what is read from the cut frame and the bytes that followed it; the cut
      frame itself is among them if and only if those bytes happen to be its missing ones. */
  lemma {:induction false} CutFrameOnTheWire(version: Version, sender: Order, receiver: Order, actions: seq<Action>, s: System,
                                             i: nat)
    requires Reached(version, sender, receiver, actions, s)
    requires i < |s.released| && IsCut(version, sender, s.released[i])
    requires forall j | 0 <= j < i :: !IsCut(version, sender, s.released[j])
    requires forall j | 0 <= j <= i :: Readable(version, s.released[j].msg.key, s.released[j].msg.data)
    requires |WireOf(version, sender, s.released[..i + 1])| <= s.taken
    ensures var before := Finished(version, sender, s.released[..i]);
            var start := |WireOf(version, sender, s.released[..i + 1])|;
            var r := s.released[i];
            var f := Frame(version, sender, r.msg.key, r.msg.data);
      && AllSendable(version, before)
      && s.taken <= |s.wire|
      && s.packets == FrameList(version, sender, before) + Frames(version, f[..r.sent] + s.wire[start..s.taken])
      && (|s.packets| > |before| && s.packets[|before|] == f <==> f[r.sent..] <= s.wire[start..s.taken])
  {
    hide Run, Frame, Sendable, Concat, Frames, IsFrame, WireOf, Finished, SubscriberInv, Readable, Messages, Writes;
    RunKeepsInv(version, sender, receiver, actions);
    RunKeepsConfiguration(version, sender, receiver, actions);
    PacketsFollowBytes(version, sender, receiver, actions, s);
    var (rs, r) := (s.released[..i], s.released[i]);
    var f := Frame(version, sender, r.msg.key, r.msg.data);
    var before := Finished(version, sender, rs);
    var start := |WireOf(version, sender, s.released[..i + 1])|;
    WireOfPrefix(version, sender, s.released, i + 1);
    var next := s.wire[start..s.taken];
    UncutWire(version, sender, rs);
    WireOfCut(version, sender, s.released, i);
    var frames := FrameList(version, sender, before);
    assert s.wire[..s.taken] == s.wire[..start] + next;
    assert s.wire[..s.taken] == Concat(frames) + (f[..r.sent] + next);
    FinishedReadable(version, sender, rs);
    FramesOfConcat(version, frames, f[..r.sent] + next);
    FrameReadableIff(version, sender, r.msg.key, r.msg.data);
    CutFrameSwallowsNext(version, f, r.sent, next);
  }

  lemma {:induction false} WireOfPrefix(version: Version, order: Order, rs: seq<Release>, i: nat)
    requires i <= |rs|
    ensures WireOf(version, order, rs[..i]) <= WireOf(version, order, rs)
  {
    hide Piece;
    if i == |rs| {
      assert rs[..i] == rs;
    } else {
      WireOfPrefix(version, order, rs[..|rs| - 1], i);
      assert rs[..|rs| - 1][..i] == rs[..i];
    }
  }

  lemma {:induction false} WireOfCut(version: Version, order: Order, rs: seq<Release>, i: nat)
    requires i < |rs| && IsCut(version, order, rs[i])
    ensures WireOf(version, order, rs[..i + 1])
         == WireOf(version, order, rs[..i]) + Frame(version, order, rs[i].msg.key, rs[i].msg.data)[..rs[i].sent]
  {
    hide Frame;
    assert rs[..i + 1][..i] == rs[..i];
  }

  lemma {:induction false} FinishedReadable(version: Version, order: Order, rs: seq<Release>)
    requires forall j | 0 <= j < |rs| :: Readable(version, rs[j].msg.key, rs[j].msg.data)
    ensures AllSendable(version, Finished(version, order, rs))
    ensures forall f | f in FrameList(version, order, Finished(version, order, rs)) :: IsFrame(version, f)
  {
    hide Frame, IsFrame, Sendable, Readable;
    FinishedExpressible(version, order, rs);
    FinishedAmong(version, order, rs);
    var sends := Finished(version, order, rs);
    forall k | 0 <= k < |sends|
      ensures Sendable(version, sends[k].key, sends[k].data)
      ensures IsFrame(version, Frame(version, order, sends[k].key, sends[k].data))
    {
      assert sends[k] in sends;
      FrameReadableIff(version, order, sends[k].key, sends[k].data);
    }
  }

  lemma {:induction false} FinishedAmong(version: Version, order: Order, rs: seq<Release>)
    ensures forall m | m in Finished(version, order, rs) :: exists j :: 0 <= j < |rs| && rs[j].msg == m
  {
    hide Frame;
    if rs != [] {
      var front := rs[..|rs| - 1];
      FinishedAmong(version, order, front);
      assert forall j | 0 <= j < |front| :: front[j] == rs[j];
    }
  }

  // ---------------------------------------------------------------- a run with a failed write

  /** One whole call of send by a thread: `size` bytes are accepted, then the write ends or fails. */
  function SendOf(t: nat, msg: Message, size: nat, whole: bool): seq<Action> {
    [Call(t, msg), Acquire(t), Push(t, size), if whole then Finish(t) else Fail(t)]
  }

  lemma {:induction false} OneSend(s: System, t: nat, msg: Message, size: nat)
    requires t !in s.pcs && s.lock.None? && Expressible(s.version, msg)
    requires 0 < size <= |Frame(s.version, s.sender, msg.key, msg.data)|
    ensures var f := Frame(s.version, s.sender, msg.key, msg.data);
            Perform(s, SendOf(t, msg, size, size == |f|))
            == s.(wire := s.wire + f[..size], calls := s.calls + [Sent(t, msg)],
                  released := s.released + [Release(|s.calls|, msg, size)])
  {
    hide Frame, Sendable;
    var f := Frame(s.version, s.sender, msg.key, msg.data);
    var last := if size == |f| then Finish(t) else Fail(t);
    var n := |s.calls|;
    var s1 := s.(calls := s.calls + [Sent(t, msg)], pcs := s.pcs[t := Waiting(n, msg)]);
    var s2 := s1.(lock := Some(t), pcs := s1.pcs[t := Writing(n, msg, f, 0)]);
    var s3 := s2.(wire := s2.wire + f[0..size], pcs := s2.pcs[t := Writing(n, msg, f, size)]);
    assert Step(s, Call(t, msg)) == s1;
    assert Step(s1, Acquire(t)) == s2;
    assert Step(s2, Push(t, size)) == s3;
    assert s3.pcs - {t} == s.pcs;
    assert f[0..size] == f[..size];
    PerformFour(s, Call(t, msg), Acquire(t), Push(t, size), last);
  }

  lemma {:induction false} PerformFour(s: System, a: Action, b: Action, c: Action, d: Action)
    ensures Perform(s, [a, b, c, d]) == Step(Step(Step(Step(s, a), b), c), d)
  {
    hide Step;
    assert [a, b, c, d][1..] == [b, c, d] && [b, c, d][1..] == [c, d];
    PerformTwo(Step(Step(s, a), b), c, d);
    assert Perform(Step(s, a), [b, c, d]) == Perform(Step(Step(s, a), b), [c, d]);
  }

  lemma {:induction false} PerformTwo(s: System, a: Action, b: Action)
    ensures Perform(s, [a, b]) == Step(Step(s, a), b)
  {
    hide Step;
    assert [a, b][1..] == [b] && [b][1..] == [];
    assert Perform(Step(s, a), [b]) == Perform(Step(Step(s, a), b), []);
  }

  lemma {:induction false} PerformConcat(s: System, a: seq<Action>, b: seq<Action>)
    ensures Perform(s, a + b) == Perform(Perform(s, a), b)
    decreases |a|
  {
    hide Step;
    if a == [] {
      assert a + b == b;
    } else {
      assert (a + b)[1..] == a[1..] + b;
      PerformConcat(Step(s, a[0]), a[1..], b);
    }
  }

  /** The receive loop takes a frame in two calls of recv: its header, then the rest. */
  function TakeOf(version: Version, f: Bytes): seq<Action>
  {
    [Recv(HeadSize(version)), Recv(|f|)]
  }

  lemma {:induction false} OneFrame(s: System, f: Bytes)
    requires s.alive && s.buf == [] && s.taken <= |s.wire| && s.wire[s.taken..] == f
    requires IsFrame(s.version, f) && HeadSize(s.version) <= |f|
    ensures Perform(s, TakeOf(s.version, f))
         == RecvCallback(s.(taken := s.taken + |f|, packets := s.packets + [f]), Receive(s.version, s.receiver, f))
  {
    hide Step, FrameHead, RecvCallback;
    PerformTwo(s, Recv(HeadSize(s.version)), Recv(|f|));
    if HeadSize(s.version) < |f| {
      TakeHeader(s, f);
      TakeRest(s.(taken := s.taken + HeadSize(s.version), buf := f[..HeadSize(s.version)]), f);
    } else {
      TakeBareHeader(s, f);
      NothingLeft(s.(taken := s.taken + |f|, packets := s.packets + [f]), Receive(s.version, s.receiver, f), |f|);
    }
  }

  /** A version 2 frame without a body is its header. */
  lemma {:induction false} TakeBareHeader(s: System, f: Bytes)
    requires s.alive && s.buf == [] && s.taken <= |s.wire| && s.wire[s.taken..] == f
    requires IsFrame(s.version, f) && HeadSize(s.version) == |f|
    ensures Step(s, Recv(|f|))
         == RecvCallback(s.(taken := s.taken + |f|, packets := s.packets + [f]), Receive(s.version, s.receiver, f))
  {
    hide Receive, RecvCallback, ReadLe32;
    assert s.wire[s.taken..s.taken + |f|] == f;
    assert [] + f == f;
  }

  lemma {:induction false} NothingLeft(s: System, received: Option<Message>, count: nat)
    requires s.taken == |s.wire|
    ensures Step(RecvCallback(s, received), Recv(count)) == RecvCallback(s, received)
  {
  }

  lemma {:induction false} TakeHeader(s: System, f: Bytes)
    requires s.alive && s.buf == [] && s.taken <= |s.wire| && s.wire[s.taken..] == f
    requires IsFrame(s.version, f) && HeadSize(s.version) < |f|
    ensures var h := HeadSize(s.version);
            Step(s, Recv(h)) == s.(taken := s.taken + h, buf := f[..h])
  {
    hide Receive, FrameHead, RecvCallback;
    var h := HeadSize(s.version);
    FrameStart(s.version, f);
    assert s.wire[s.taken..s.taken + h] == f[..h];
    assert [] + f[..h] == f[..h];
  }

  lemma {:induction false} TakeRest(s: System, f: Bytes)
    requires var h := HeadSize(s.version);
      && s.alive && h < |f| && s.buf == f[..h] && s.taken <= |s.wire| && s.wire[s.taken..] == f[h..]
    requires IsFrame(s.version, f)
    ensures Step(s, Recv(|f|))
         == RecvCallback(s.(taken := s.taken + (|f| - HeadSize(s.version)), buf := [], packets := s.packets + [f]),
                         Receive(s.version, s.receiver, f))
  {
    hide Receive, FrameHead, RecvCallback;
    var h := HeadSize(s.version);
    FrameStart(s.version, f);
    assert s.wire[s.taken..s.taken + (|f| - h)] == f[h..];
    assert f[..h] + f[h..] == f;
  }

  lemma {:induction false} FrameStart(version: Version, f: Bytes)
    requires IsFrame(version, f) && HeadSize(version) < |f|
    ensures FrameHead(version, f[..HeadSize(version)]) == Whole(|f|)
    ensures FrameHead(version, []) == Short
  {
    var h := HeadSize(version);
    assert f == f[..h] + f[h..];
    HeadOfExtension(version, f[..h], f[h..]);
  }

  /** What precedes the data in a frame depends on the data only through its length. */
  lemma {:induction false} SameHeader(version: Version, order: Order, key: Key, data: Bytes, other: Bytes)
    requires |data| == |other| && Sendable(version, key, data)
    ensures Sendable(version, key, other)
    ensures var f := Frame(version, order, key, data);
            |f| > |data| + 4 && Frame(version, order, key, other) == f[..|f| - |data|] + other
  {
    hide LeBytes, Normalise, NameField, CString, Join, Fields, ToLe32, ToLe16, SwapTime;
    var f := Frame(version, order, key, data);
    HeadOfFrame(version, order, key, data);
    assert f == f[..|f| - |data|] + data;
  }

  /** The run: one thread's write fails when exactly the data of its frame is missing, then another
      thread sends a frame of that length. */
  function CutRun(version: Version, order: Order, a: Message, b: Message): seq<Action>
    requires Sendable(version, a.key, a.data) && Sendable(version, b.key, b.data)
  {
    var (f, g) := (Frame(version, order, a.key, a.data), Frame(version, order, b.key, b.data));
    if |f| < |a.data| then [] else
    SendOf(0, a, |f| - |a.data|, false) + SendOf(1, b, |g|, true) + TakeOf(version, f)
  }

  /** The state that run ends in. */
  lemma {:induction false} CutRunEnds(version: Version, sender: Order, receiver: Order, a: Message, b: Message)
    requires Expressible(version, a) && Expressible(version, b) && Readable(version, a.key, a.data)
    requires |a.data| == |Frame(version, sender, b.key, b.data)|
    ensures var (f, g) := (Frame(version, sender, a.key, a.data), Frame(version, sender, b.key, b.data));
      && Sendable(version, a.key, g) && |g| > |b.data| && 0 < |f| - |a.data| < |f|
      && var forged := Frame(version, sender, a.key, g);
         Run(Start(version, sender, receiver), CutRun(version, sender, a, b))
         == RecvCallback(System(version, sender, receiver, [Sent(0, a), Sent(1, b)], map[], None,
                                [Release(0, a, |f| - |a.data|), Release(1, b, |g|)],
                                forged, |f|, [], true, [forged], [], [], [], []),
                         Receive(version, receiver, forged))
  {
    hide Frame, Sendable, Readable, Step, Receive, RecvCallback, SendOf, TakeOf, IsFrame, Perform, Run;
    var start := Start(version, sender, receiver);
    var (f, g) := (Frame(version, sender, a.key, a.data), Frame(version, sender, b.key, b.data));
    SameHeader(version, sender, b.key, b.data, b.data);
    SameHeader(version, sender, a.key, a.data, g);
    var k := |f| - |a.data|;
    var forged := Frame(version, sender, a.key, g);
    OneSend(start, 0, a, k);
    var s1 := start.(calls := [Sent(0, a)], wire := f[..k], released := [Release(0, a, k)]);
    assert [] + f[..k] == f[..k];
    assert Perform(start, SendOf(0, a, k, false)) == s1;
    OneSend(s1, 1, b, |g|);
    var s2 := s1.(calls := [Sent(0, a), Sent(1, b)], wire := forged, released := [Release(0, a, k), Release(1, b, |g|)]);
    assert [Sent(0, a)] + [Sent(1, b)] == [Sent(0, a), Sent(1, b)];
    assert g[..|g|] == g && [Release(0, a, k)] + [Release(1, b, |g|)] == [Release(0, a, k), Release(1, b, |g|)];
    assert Perform(s1, SendOf(1, b, |g|, true)) == s2;
    ForgedFrame(version, sender, a, g);
    assert s2.wire[0..] == forged;
    OneFrame(s2, forged);
    assert [] + [forged] == [forged];
    SameTake(version, f, forged);
    PerformConcat(start, SendOf(0, a, k, false) + SendOf(1, b, |g|, true), TakeOf(version, f));
    PerformConcat(start, SendOf(0, a, k, false), SendOf(1, b, |g|, true));
    FromStart(start, CutRun(version, sender, a, b));
  }

  lemma {:induction false} FromStart(s: System, actions: seq<Action>)
    ensures Run(s, actions) == Perform(s, actions)
  {
    hide Step;
    assert [] + actions == actions;
    PerformExtendsRun(s, [], actions);
  }

  /** For all such messages the receiver takes the second frame for the data of the first: the packets
      are not a prefix of the frames sent, and the endpoint is handed a message nobody sent, unless the
      two happen to be equal. */
  lemma {:induction false} CutRunDeliversFrameAsData(version: Version, sender: Order, receiver: Order, a: Message, b: Message)
    requires Expressible(version, a) && Expressible(version, b) && Readable(version, a.key, a.data)
    requires |a.data| == |Frame(version, sender, b.key, b.data)| && LooksLikeData(version, Frame(version, sender, b.key, b.data))
    ensures var s := Run(Start(version, sender, receiver), CutRun(version, sender, a, b));
            var g := Frame(version, sender, b.key, b.data);
      && Broken(s) && Done(s) == [b]
      && Sendable(version, a.key, g) && s.packets == [Frame(version, sender, a.key, g)]
      && Writes(s.ops) == [Message(NormalKey(a.key), g)] && g != b.data
  {
    hide Frame, Sendable, Readable, LooksLikeData, Receive, RecvCallback, NormalKey, IsFrame, Run, CutRun, Finished, IsCut, Writes;
    var (f, g) := (Frame(version, sender, a.key, a.data), Frame(version, sender, b.key, b.data));
    CutRunEnds(version, sender, receiver, a, b);
    var forged := Frame(version, sender, a.key, g);
    ReceiveFrame(version, sender, receiver, a.key, g);
    ForgedFrame(version, sender, a, g);
    HandedOver(System(version, sender, receiver, [Sent(0, a), Sent(1, b)], map[], None,
                                [Release(0, a, |f| - |a.data|), Release(1, b, |g|)],
                      forged, |f|, [], true, [forged], [], [], [], []), Message(NormalKey(a.key), g));
    CutThenWhole(version, sender, a, b, |f| - |a.data|);
  }

  lemma {:induction false} SameTake(version: Version, f: Bytes, g: Bytes)
    requires |f| == |g|
    ensures TakeOf(version, f) == TakeOf(version, g)
  {
  }

  lemma {:induction false} HandedOver(s: System, m: Message)
    requires s.ops == []
    ensures var t := RecvCallback(s, Some(m));
            Writes(t.ops) == [m] && t.packets == s.packets && t.released == s.released
            && t.version == s.version && t.sender == s.sender
  {
    WritesSnoc([], Cache.Write(m.key, m.data));
  }

  lemma {:induction false} CutThenWhole(version: Version, order: Order, a: Message, b: Message, k: nat)
    requires Expressible(version, a) && Expressible(version, b)
    requires 0 < k < |Frame(version, order, a.key, a.data)|
    ensures var g := Frame(version, order, b.key, b.data);
            var rs := [Release(0, a, k), Release(1, b, |g|)];
            IsCut(version, order, rs[0]) && Finished(version, order, rs) == [b]
  {
    hide Frame, Sendable;
    var g := Frame(version, order, b.key, b.data);
    var rs := [Release(0, a, k), Release(1, b, |g|)];
    assert rs[..1] == [Release(0, a, k)] && rs[..1][..0] == [];
    assert Finished(version, order, rs[..1]) == [];
  }

  lemma {:induction false} ForgedFrame(version: Version, order: Order, a: Message, g: Bytes)
    requires Expressible(version, a) && Readable(version, a.key, a.data) && |g| == |a.data| > 0
    ensures Sendable(version, a.key, g) && (version.V2? ==> |g| < 0x1_0000_0000)
    ensures var forged := Frame(version, order, a.key, g);
            IsFrame(version, forged) && HeadSize(version) < |forged|
  {
    hide Frame, Normalise;
    SameHeader(version, order, a.key, a.data, g);
    FrameReadableIff(version, order, a.key, g);
    HeadOfFrame(version, order, a.key, g);
  }

  /** Two such messages: twelve data bytes are missing, and an empty version 1 message is sent next. */
  lemma {:induction false} CutFrameExample(receiver: Order)
    ensures var key := Key([], 0);
            var (a, b) := (Message(key, Zeros(12)), Message(key, []));
      && Sendable(V1, a.key, a.data) && Sendable(V1, b.key, b.data)
      && var s := Run(Start(V1, Little, receiver), CutRun(V1, Little, a, b));
         && Broken(s)
         && |Writes(s.ops)| == 1 && Writes(s.ops)[0] != a && Writes(s.ops)[0] != b
         && |s.packets| == 1 && s.packets[0] != Frame(V1, Little, a.key, a.data) && s.packets[0] != Frame(V1, Little, b.key, b.data)
  {
    hide Run, Writes, CutRun, Broken;
    var key := Key([], 0);
    var (a, b) := (Message(key, Zeros(12)), Message(key, []));
    EmptyNameFrame(Zeros(12));
    EmptyNameFrame([]);
    var g := Frame(V1, Little, key, []);
    EmptyNameFrame(g);
    assert g[0] == 8 && ReadLe32(g) == 8;
    CutRunDeliversFrameAsData(V1, Little, receiver, a, b);
    assert Frame(V1, Little, key, g)[12] == 8 && Frame(V1, Little, key, a.data)[12] == 0;
  }

  lemma {:induction false} EmptyNameFrame(data: Bytes)
    requires |data| < 0x1000
    ensures var key := Key([], 0);
      && Sendable(V1, key, data) && Expressible(V1, Message(key, data)) && Readable(V1, key, data)
      && Frame(V1, Little, key, data) == LeBytes(8 + |data|, 4) + [0, 0, 0, 0] + [0, 0, 0, 0] + data
      && (data == [] ==> LeBytes(8 + |data|, 4) == [8, 0, 0, 0])
  {
    hide NameField, LeBytes, CString;
    MakeParts([], 0, data);
    NoName();
    SmallWords();
  }

  lemma {:induction false} NoName()
    ensures Normalise([]) == []
  {
  }

  lemma {:induction false} SmallWords()
    ensures LeBytes(0, 4) == [0, 0, 0, 0] && LeBytes(8, 4) == [8, 0, 0, 0]
  {
  }
}
