/** WebSocketComm: every send is posted to all current sessions under one lock. */
module WebSocketBroadcast {
  import opened Types
  import opened ByteOrder
  import opened WebSocketPump
  import CommRaw
  import Framing
  import Channel

  /** The comm and all the sessions it ever created, by creation number. */
  datatype Comm = Comm(
    running: bool,
    members: seq<nat>,           // sessions_
    pumps: seq<Session>,         // every session created, alive or removed
    broadcasts: seq<Bytes>,      // messages accepted by raw_send, in lock order
    joined: seq<nat>,            // number of broadcasts when the session entered sessions_
    left: seq<Option<nat>>)      // number of broadcasts when it was removed

  datatype Event =
    | Start
    | Send(data: Bytes)                // raw_send
    | Accept                           // on_accept: one more session
    | Resolve                          // on_resolve: the client's only session
    | Pump(id: nat)                    // a session's strand runs its next handler
    | Written(id: nat, ok: bool)       // a session's async_write completes
    | ReadError(id: nat)               // a session's read or handshake fails
    | Stop                             // raw_stop

  function Idle(): Comm {
    Comm(false, [], [], [], [], [])
  }

  /** do_write on each of the listed sessions, in order. */
  function PostAll(pumps: seq<Session>, ids: seq<nat>, data: Bytes): (r: seq<Session>)
    ensures |r| == |pumps|
    decreases |ids|
  {
    if ids == [] then pumps
    else if ids[0] < |pumps|
    then PostAll(pumps[ids[0] := WebSocketPump.Step(pumps[ids[0]], DoWrite(data))], ids[1..], data)
    else PostAll(pumps, ids[1..], data)
  }

  function CloseAll(pumps: seq<Session>, ids: seq<nat>): (r: seq<Session>)
    ensures |r| == |pumps|
    decreases |ids|
  {
    if ids == [] then pumps
    else if ids[0] < |pumps| then CloseAll(pumps[ids[0] := PostClose(pumps[ids[0]])], ids[1..])
    else CloseAll(pumps, ids[1..])
  }

  function Without(members: seq<nat>, id: nat): seq<nat> {
    if members == [] then []
    else if members[0] == id then Without(members[1..], id)
    else [members[0]] + Without(members[1..], id)
  }

  function MarkLeft(left: seq<Option<nat>>, ids: seq<nat>, at: nat): (r: seq<Option<nat>>)
    ensures |r| == |left|
    ensures forall i | 0 <= i < |left| :: r[i] == if left[i].None? && i in ids then Some(at) else left[i]
  {
    seq(|left|, i requires 0 <= i < |left| => if left[i].None? && i in ids then Some(at) else left[i])
  }

  function AddSession(c: Comm): Comm {
    c.(members := c.members + [|c.pumps|], pumps := c.pumps + [Fresh()],
       joined := c.joined + [|c.broadcasts|], left := c.left + [None])
  }

  /** remove_session: close the session and drop it from the list. */
  function Remove(c: Comm, id: nat): Comm
    requires id < |c.pumps|
  {
    c.(pumps := c.pumps[id := PostClose(c.pumps[id])], members := Without(c.members, id),
       left := MarkLeft(c.left, [id], |c.broadcasts|))
  }

  function Step(c: Comm, e: Event): Comm {
    match e
    case Start => c.(running := true)
    case Send(data) =>
      if !c.running || c.members == [] then c
      else c.(pumps := PostAll(c.pumps, c.members, data), broadcasts := c.broadcasts + [data])
    case Accept => AddSession(c)
    case Resolve => AddSession(c.(members := [], left := MarkLeft(c.left, c.members, |c.broadcasts|)))
    case Pump(id) =>
      if id >= |c.pumps| then c else c.(pumps := c.pumps[id := WebSocketPump.Step(c.pumps[id], RunHandler)])
    case Written(id, ok) =>
      if id >= |c.pumps| || c.pumps[id].outstanding.None? then c else
      var d := c.(pumps := c.pumps[id := OnWrite(c.pumps[id], ok)]);
      // on_write has already posted the close that remove_session posts
      if ok then d else d.(members := Without(c.members, id), left := MarkLeft(c.left, [id], |c.broadcasts|))
    case ReadError(id) => if id >= |c.pumps| then c else Remove(c, id)
    case Stop =>
      if !c.running then c
      else c.(running := false, members := [], pumps := CloseAll(c.pumps, c.members),
              left := MarkLeft(c.left, c.members, |c.broadcasts|))
  }

  function Run(c: Comm, events: seq<Event>): Comm {
    if events == [] then c else Step(Run(c, events[..|events| - 1]), events[|events| - 1])
  }

  ghost predicate NoDuplicates(s: seq<nat>) {
    forall i, j | 0 <= i < j < |s| :: s[i] != s[j]
  }

  /** The broadcasts made while a session was in the list. */
  function Audible(c: Comm, id: nat): seq<Bytes>
    requires id < |c.joined| && id < |c.left|
    requires c.joined[id] <= |c.broadcasts|
    requires c.left[id].Some? ==> c.joined[id] <= c.left[id].value <= |c.broadcasts|
  {
    match c.left[id]
    case None => c.broadcasts[c.joined[id]..]
    case Some(n) => c.broadcasts[c.joined[id]..n]
  }

  ghost predicate ListInv(c: Comm) {
    && |c.joined| == |c.left| == |c.pumps|
    && NoDuplicates(c.members)
    && (forall id | id in c.members :: id < |c.pumps|)
    && (forall id | 0 <= id < |c.pumps| :: id in c.members <==> c.left[id].None?)
    && (forall id | 0 <= id < |c.pumps| :: c.joined[id] <= |c.broadcasts|)
    && (forall id | 0 <= id < |c.pumps| && c.left[id].Some? :: c.joined[id] <= c.left[id].value <= |c.broadcasts|)
  }

  ghost predicate PumpsInv(c: Comm)
    requires ListInv(c)
  {
    forall id | 0 <= id < |c.pumps| ::
      c.pumps[id].alive && WebSocketPump.Inv(c.pumps[id]) && c.pumps[id].requested == Audible(c, id)
  }

  lemma {:induction false} WithoutIsRemoval(members: seq<nat>, id: nat)
    ensures forall x :: x in Without(members, id) <==> x in members && x != id
    ensures NoDuplicates(members) ==> NoDuplicates(Without(members, id))
    ensures |Without(members, id)| <= |members|
  {
    if members == [] {
    } else {
      WithoutIsRemoval(members[1..], id);
      assert members == [members[0]] + members[1..];
      var w := Without(members, id);
      if NoDuplicates(members) && members[0] != id {
        assert forall j | 1 <= j < |w| :: w[j] in Without(members[1..], id);
        assert w[1..] == Without(members[1..], id);
      }
    }
  }

  /** Each listed session gets the message exactly once, every other session is untouched. */
  lemma {:induction false} PostAllOnce(pumps: seq<Session>, ids: seq<nat>, data: Bytes)
    requires NoDuplicates(ids)
    ensures forall i | 0 <= i < |pumps| ::
      PostAll(pumps, ids, data)[i] == if i in ids then WebSocketPump.Step(pumps[i], DoWrite(data)) else pumps[i]
    decreases |ids|
  {
    hide WebSocketPump.Step;
    if ids == [] {
    } else {
      assert forall i | 0 <= i < |ids| - 1 :: ids[1..][i] == ids[i + 1];
      var more := if ids[0] < |pumps| then pumps[ids[0] := WebSocketPump.Step(pumps[ids[0]], DoWrite(data))] else pumps;
      PostAllOnce(more, ids[1..], data);
      assert ids[0] !in ids[1..];
      assert forall x :: x in ids <==> x == ids[0] || x in ids[1..];
    }
  }

  lemma {:induction false} CloseAllKeeps(pumps: seq<Session>, ids: seq<nat>)
    requires forall i | 0 <= i < |pumps| :: WebSocketPump.Inv(pumps[i])
    ensures forall i | 0 <= i < |pumps| ::
      var q := CloseAll(pumps, ids)[i];
      WebSocketPump.Inv(q) && q.alive == pumps[i].alive && q.requested == pumps[i].requested
    decreases |ids|
  {
    hide WebSocketPump.Inv;
    if ids == [] {
    } else if ids[0] < |pumps| {
      WebSocketPump.StepKeepsInv(pumps[ids[0]], Action.Close);
      CloseAllKeeps(pumps[ids[0] := PostClose(pumps[ids[0]])], ids[1..]);
    } else {
      CloseAllKeeps(pumps, ids[1..]);
    }
  }

  lemma {:induction false} AddKeepsList(c: Comm)
    requires ListInv(c)
    ensures ListInv(AddSession(c))
  {
    var n := |c.pumps|;
    assert forall i | 0 <= i < |c.members| :: c.members[i] in c.members;
    assert forall x :: x in c.members + [n] <==> x in c.members || x == n;
  }

  lemma {:induction false} EmptyKeepsList(c: Comm, d: Comm)
    requires ListInv(c) && |d.pumps| == |c.pumps| && d.joined == c.joined && d.broadcasts == c.broadcasts
    requires d.members == [] && d.left == MarkLeft(c.left, c.members, |c.broadcasts|)
    ensures ListInv(d)
  {
  }

  lemma {:induction false} RemoveKeepsList(c: Comm, d: Comm, id: nat)
    requires ListInv(c) && |d.pumps| == |c.pumps| && d.joined == c.joined && d.broadcasts == c.broadcasts
    requires d.members == Without(c.members, id) && d.left == MarkLeft(c.left, [id], |c.broadcasts|)
    ensures ListInv(d)
  {
    WithoutIsRemoval(c.members, id);
  }

  lemma {:induction false} StepKeepsList(c: Comm, e: Event)
    requires ListInv(c)
    ensures ListInv(Step(c, e))
  {
    hide WebSocketPump.Step, OnWrite, PostAll, CloseAll, Without, MarkLeft;
    match e
    case Accept => AddKeepsList(c);
    case Resolve =>
      var d := c.(members := [], left := MarkLeft(c.left, c.members, |c.broadcasts|));
      EmptyKeepsList(c, d);
      AddKeepsList(d);
    case Written(id, ok) => if id < |c.pumps| && c.pumps[id].outstanding.Some? && !ok { RemoveKeepsList(c, Step(c, e), id); }
    case ReadError(id) => if id < |c.pumps| { RemoveKeepsList(c, Step(c, e), id); }
    case Stop => if c.running { EmptyKeepsList(c, Step(c, e)); }
    case _ =>
  }

  /** A session is healthy for what it could hear. */
  ghost predicate PumpInv(p: Session, audible: seq<Bytes>) {
    p.alive && WebSocketPump.Inv(p) && p.requested == audible
  }

  lemma {:induction false} SendKeepsPumps(c: Comm, data: Bytes)
    requires ListInv(c) && PumpsInv(c) && c.running && c.members != [] && ListInv(Step(c, Send(data)))
    ensures PumpsInv(Step(c, Send(data)))
  {
    hide WebSocketPump.Step, WebSocketPump.Inv, PostAll;
    var d := Step(c, Send(data));
    PostAllOnce(c.pumps, c.members, data);
    forall id | 0 <= id < |d.pumps|
      ensures PumpInv(d.pumps[id], Audible(d, id))
    {
      if id in c.members {
        WebSocketPump.StepKeepsInv(c.pumps[id], DoWrite(data));
        Posted(c.pumps[id], data);
        assert Audible(d, id) == Audible(c, id) + [data];
      } else {
        assert Audible(d, id) == Audible(c, id);
      }
    }
  }

  lemma {:induction false} AddKeepsPumps(c: Comm)
    requires ListInv(c) && PumpsInv(c) && ListInv(AddSession(c))
    ensures PumpsInv(AddSession(c))
  {
    hide WebSocketPump.Inv, Fresh;
    FreshInv();
    var d := AddSession(c);
    forall id | 0 <= id < |d.pumps|
      ensures PumpInv(d.pumps[id], Audible(d, id))
    {
      if id < |c.pumps| {
        assert Audible(d, id) == Audible(c, id);
      } else {
        assert Audible(d, id) == [];
      }
    }
  }

  /** Replacing pumps by healthy ones that heard the same, and closing the ears of some sessions now,
      keeps every session healthy for what it could hear. */
  lemma {:induction false} SameAudible(c: Comm, d: Comm, gone: seq<nat>)
    requires ListInv(c) && PumpsInv(c) && ListInv(d)
    requires d.joined == c.joined && d.broadcasts == c.broadcasts && |d.pumps| == |c.pumps|
    requires d.left == MarkLeft(c.left, gone, |c.broadcasts|)
    requires forall id | 0 <= id < |c.pumps| :: PumpInv(d.pumps[id], c.pumps[id].requested)
    ensures PumpsInv(d)
  {
    hide WebSocketPump.Inv;
    forall id | 0 <= id < |d.pumps|
      ensures PumpInv(d.pumps[id], Audible(d, id))
    {
      assert c.pumps[id].requested == Audible(c, id);
      assert Audible(d, id) == Audible(c, id);
    }
  }

  lemma {:induction false} StepKeepsPumps(c: Comm, e: Event)
    requires ListInv(c) && PumpsInv(c) && ListInv(Step(c, e))
    ensures PumpsInv(Step(c, e))
  {
    hide WebSocketPump.Step, WebSocketPump.Inv, OnWrite, PostAll, CloseAll, Without, PostClose, ListInv;
    match e
    case Send(data) =>
      if c.running && c.members != [] {
        SendKeepsPumps(c, data);
      }
    case Accept => AddKeepsPumps(c);
    case Resolve =>
      var d := c.(members := [], left := MarkLeft(c.left, c.members, |c.broadcasts|));
      EmptyKeepsList(c, d);
      SameAudible(c, d, c.members);
      AddKeepsPumps(d);
    case Pump(id) => if id < |c.pumps| { PumpKeeps(c, id); }
    case Written(id, ok) => if id < |c.pumps| && c.pumps[id].outstanding.Some? { WrittenKeeps(c, id, ok); }
    case ReadError(id) => if id < |c.pumps| { ReadErrorKeeps(c, id); }
    case Stop =>
      if c.running {
        CloseAllKeeps(c.pumps, c.members);
        SameAudible(c, Step(c, e), c.members);
      }
    case Start => assert MarkLeft(c.left, [], |c.broadcasts|) == c.left;
  }

  lemma {:induction false} PumpKeeps(c: Comm, id: nat)
    requires ListInv(c) && PumpsInv(c) && id < |c.pumps| && ListInv(Step(c, Pump(id)))
    ensures PumpsInv(Step(c, Pump(id)))
  {
    hide WebSocketPump.Step, WebSocketPump.Inv, ListInv;
    WebSocketPump.StepKeepsInv(c.pumps[id], RunHandler);
    Unrequested(c.pumps[id], RunHandler);
    assert MarkLeft(c.left, [], |c.broadcasts|) == c.left;
    SameAudible(c, Step(c, Pump(id)), []);
  }

  lemma {:induction false} WrittenKeeps(c: Comm, id: nat, ok: bool)
    requires ListInv(c) && PumpsInv(c) && id < |c.pumps| && c.pumps[id].outstanding.Some?
    requires ListInv(Step(c, Written(id, ok)))
    ensures PumpsInv(Step(c, Written(id, ok)))
  {
    hide WebSocketPump.Step, WebSocketPump.Inv, OnWrite, Without, ListInv;
    WebSocketPump.StepKeepsInv(c.pumps[id], Complete(ok));
    Unrequested(c.pumps[id], Complete(ok));
    Completes(c.pumps[id], ok);
    assert MarkLeft(c.left, [], |c.broadcasts|) == c.left;
    SameAudible(c, Step(c, Written(id, ok)), if ok then [] else [id]);
  }

  lemma {:induction false} ReadErrorKeeps(c: Comm, id: nat)
    requires ListInv(c) && PumpsInv(c) && id < |c.pumps| && ListInv(Step(c, ReadError(id)))
    ensures PumpsInv(Step(c, ReadError(id)))
  {
    hide WebSocketPump.Step, WebSocketPump.Inv, Without, ListInv;
    WebSocketPump.StepKeepsInv(c.pumps[id], Action.Close);
    Closes(c.pumps[id]);
    SameAudible(c, Step(c, ReadError(id)), [id]);
  }

  lemma {:induction false} FreshInv()
    ensures WebSocketPump.Inv(Fresh()) && Fresh().alive && Fresh().requested == []
  {
  }

  lemma {:induction false} Posted(p: Session, data: Bytes)
    requires p.alive
    ensures WebSocketPump.Step(p, DoWrite(data)).alive
    ensures WebSocketPump.Step(p, DoWrite(data)).requested == p.requested + [data]
  {
  }

  lemma {:induction false} Unrequested(p: Session, a: WebSocketPump.Action)
    requires a.RunHandler? || a.Complete?
    ensures WebSocketPump.Step(p, a).alive == p.alive && WebSocketPump.Step(p, a).requested == p.requested
  {
  }

  lemma {:induction false} Completes(p: Session, ok: bool)
    requires p.outstanding.Some?
    ensures WebSocketPump.Step(p, Complete(ok)) == OnWrite(p, ok)
  {
  }

  lemma {:induction false} Closes(p: Session)
    ensures WebSocketPump.Step(p, Action.Close) == PostClose(p)
  {
  }

  lemma {:induction false} RunKeepsInv(events: seq<Event>)
    ensures ListInv(Run(Idle(), events)) && PumpsInv(Run(Idle(), events))
  {
    hide Step;
    if events == [] {
    } else {
      RunKeepsInv(events[..|events| - 1]);
      StepKeepsList(Run(Idle(), events[..|events| - 1]), events[|events| - 1]);
      StepKeepsPumps(Run(Idle(), events[..|events| - 1]), events[|events| - 1]);
    }
  }

  /** Whatever errors and removals happen on any session: each session's completed writes are a
      prefix of the messages broadcast since it joined and before it left, in the one global order. */
  lemma {:induction false} BroadcastOrder(events: seq<Event>, id: nat)
    requires id < |Run(Idle(), events).pumps|
    ensures var c := Run(Idle(), events);
      && ListInv(c)
      && c.pumps[id].completed <= c.pumps[id].started <= Audible(c, id)
      && Audible(c, id) <= c.broadcasts[c.joined[id]..]
  {
    hide Run, WebSocketPump.Inv;
    RunKeepsInv(events);
    var c := Run(Idle(), events);
    StartedIsPrefix(c.pumps[id]);
  }

  /** Two sessions agree on every message both were sent: position k of the global order. */
  lemma {:induction false} SessionsAgree(events: seq<Event>, a: nat, b: nat, k: nat)
    requires var c := Run(Idle(), events);
      && a < |c.pumps| && b < |c.pumps| && a < |c.joined| && b < |c.joined|
      && c.joined[a] <= k < c.joined[a] + |c.pumps[a].completed|
      && c.joined[b] <= k < c.joined[b] + |c.pumps[b].completed|
    ensures var c := Run(Idle(), events);
            c.pumps[a].completed[k - c.joined[a]] == c.pumps[b].completed[k - c.joined[b]]
  {
    hide Run;
    BroadcastOrder(events, a);
    BroadcastOrder(events, b);
  }

  // ---------------------------------------------------------------- every broadcast is written

  /** raw_send on a running comm with sessions: the message is one more broadcast, every listed session's
      strand gets one more write of it, and every other session is untouched. Otherwise nothing happens. */
  lemma {:induction false} SendReachesEveryMember(c: Comm, data: Bytes)
    requires ListInv(c) && PumpsInv(c)
    ensures var d := Step(c, Send(data));
      && (c.running && c.members != [] ==>
            && d.broadcasts == c.broadcasts + [data]
            && d.running && d.members == c.members && d.joined == c.joined && d.left == c.left && |d.pumps| == |c.pumps|
            && (forall id | 0 <= id < |c.pumps| ::
                  d.pumps[id] == if id in c.members
                                 then c.pumps[id].(strand := c.pumps[id].strand + [WriteHandler(data)],
                                                   requested := c.pumps[id].requested + [data])
                                 else c.pumps[id]))
      && (!c.running || c.members == [] ==> d == c)
  {
    hide WebSocketPump.Inv;
    PostAllOnce(c.pumps, c.members, data);
  }

  /** on_accept and on_resolve list one new session that starts with nothing to write; on_resolve drops the
      others. A failed read or write, and raw_stop, take sessions off the list. */
  lemma {:induction false} MembersChange(c: Comm, e: Event)
    requires ListInv(c)
    ensures var d := Step(c, e);
      && (e.Accept? ==> d.members == c.members + [|c.pumps|] && d.pumps == c.pumps + [Fresh()])
      && (e.Resolve? ==> d.members == [|c.pumps|] && d.pumps == c.pumps + [Fresh()])
      && (e.Accept? || e.Resolve? ==> d.joined == c.joined + [|c.broadcasts|] && d.running == c.running)
      && (e.ReadError? && e.id < |c.pumps| ==> forall x :: x in d.members <==> x in c.members && x != e.id)
      && (e.Written? && !e.ok && e.id < |c.pumps| && c.pumps[e.id].outstanding.Some? ==>
            forall x :: x in d.members <==> x in c.members && x != e.id)
      && ((e.Written? && e.ok) || e.Pump? || e.Start? ==> d.members == c.members)
      && (e.Stop? && c.running ==> d.members == [] && !d.running)
      && (e.Start? ==> d.running)
  {
    hide WebSocketPump.Step, OnWrite, PostAll, CloseAll, Without, MarkLeft;
    match e
    case ReadError(id) => WithoutIsRemoval(c.members, id);
    case Written(id, ok) => WithoutIsRemoval(c.members, id);
    case _ =>
  }

  /** Sessions taken off the list are closed: a close is posted to each of them, and to no other. Only
      on_resolve drops the old sessions without closing them. */
  lemma {:induction false} LeavingCloses(c: Comm, e: Event)
    requires ListInv(c)
    ensures var d := Step(c, e);
      && (e.ReadError? && e.id < |c.pumps| ==> d.pumps == c.pumps[e.id := WithClose(c.pumps[e.id])])
      && (e.Written? && !e.ok && e.id < |c.pumps| && c.pumps[e.id].outstanding.Some? ==>
            d.pumps[e.id].strand == c.pumps[e.id].strand + [CloseHandler])
      && (e.Stop? && c.running ==>
            forall id | 0 <= id < |c.pumps| ::
              d.pumps[id] == if id in c.members then WithClose(c.pumps[id]) else c.pumps[id])
  {
    hide WebSocketPump.Step, PostAll, Without, MarkLeft;
    if e.Stop? && c.running {
      CloseAllOnce(c.pumps, c.members);
    }
  }

  function WithClose(p: Session): Session {
    p.(strand := p.strand + [CloseHandler])
  }

  lemma {:induction false} CloseAllOnce(pumps: seq<Session>, ids: seq<nat>)
    requires NoDuplicates(ids)
    ensures forall i | 0 <= i < |pumps| ::
      CloseAll(pumps, ids)[i] == if i in ids then WithClose(pumps[i]) else pumps[i]
    decreases |ids|
  {
    if ids == [] {
    } else {
      assert forall i | 0 <= i < |ids| - 1 :: ids[1..][i] == ids[i + 1];
      var more := if ids[0] < |pumps| then pumps[ids[0] := PostClose(pumps[ids[0]])] else pumps;
      CloseAllOnce(more, ids[1..]);
      assert ids[0] !in ids[1..];
      assert forall x :: x in ids <==> x == ids[0] || x in ids[1..];
    }
  }

  /** A session that left hears no later broadcast, over any further events. */
  lemma {:induction false} GoneHearsNoMore(c: Comm, events: seq<Event>, id: nat)
    requires ListInv(c) && PumpsInv(c) && id < |c.pumps| && c.left[id].Some?
    ensures var d := Run(c, events);
            ListInv(d) && PumpsInv(d) && id < |d.pumps| && d.left[id] == c.left[id] && id !in d.members
            && d.pumps[id].requested == c.pumps[id].requested && c.broadcasts <= d.broadcasts && d.joined[id] == c.joined[id]
  {
    hide Step, WebSocketPump.Inv;
    if events == [] {
    } else {
      var (front, e) := (events[..|events| - 1], events[|events| - 1]);
      GoneHearsNoMore(c, front, id);
      var d := Run(c, front);
      StepKeepsList(d, e);
      StepKeepsPumps(d, e);
      GoneStep(d, e, id);
      SameAudibleGone(d, Step(d, e), id);
    }
  }

  lemma {:induction false} GoneStep(c: Comm, e: Event, id: nat)
    requires ListInv(c) && id < |c.pumps| && c.left[id].Some?
    ensures var d := Step(c, e);
      id < |d.pumps| && id < |d.left| && id < |d.joined|
      && d.left[id] == c.left[id] && d.joined[id] == c.joined[id] && c.broadcasts <= d.broadcasts
  {
    hide WebSocketPump.Step, OnWrite, PostAll, CloseAll, Without;
  }

  lemma {:induction false} SameAudibleGone(c: Comm, d: Comm, id: nat)
    requires ListInv(c) && PumpsInv(c) && ListInv(d) && PumpsInv(d) && id < |c.pumps| && id < |d.pumps|
    requires c.left[id].Some? && d.left[id] == c.left[id] && d.joined[id] == c.joined[id] && c.broadcasts <= d.broadcasts
    ensures d.pumps[id].requested == c.pumps[id].requested
  {
    hide WebSocketPump.Inv;
    assert Audible(d, id) == Audible(c, id);
  }

  /** A session with nothing posted, nothing outstanding and no failed write has completed every
      broadcast made while it was listed. */
  lemma {:induction false} DrainedHasWrittenEveryBroadcast(events: seq<Event>, id: nat)
    requires id < |Run(Idle(), events).pumps|
    requires var p := Run(Idle(), events).pumps[id]; p.strand == [] && p.outstanding.None? && !p.failed
    ensures var c := Run(Idle(), events);
            ListInv(c) && c.pumps[id].completed == Audible(c, id)
  {
    hide Run, WebSocketPump.Inv;
    RunKeepsInv(events);
    DrainedHasWrittenAll(Run(Idle(), events).pumps[id]);
  }

  /** Nothing but the session itself changed, and it is as far as it can get. */
  ghost predicate DrainsTo(c: Comm, d: Comm, id: nat)
    requires id < |c.pumps|
  {
    && id < |d.pumps| && d == c.(pumps := c.pumps[id := d.pumps[id]])
    && d.pumps[id].strand == [] && d.pumps[id].outstanding.None? && !d.pumps[id].failed
    && d.pumps[id].requested == c.pumps[id].requested
    && d.pumps[id].completed == d.pumps[id].requested
  }

  /** Events performed from the first to the last. */
  function Perform(c: Comm, events: seq<Event>): Comm
    decreases |events|
  {
    if events == [] then c else Perform(Step(c, events[0]), events[1..])
  }

  /** The pump never gets stuck: from every state, as long as no write of a session has failed, its strand
      can run and its writes can complete until it has written every broadcast made while it was listed. */
  lemma {:induction false} CanDrain(c: Comm, id: nat) returns (events: seq<Event>)
    requires ListInv(c) && PumpsInv(c) && id < |c.pumps| && !c.pumps[id].failed
    ensures DrainsTo(c, Perform(c, events), id)
    ensures Perform(c, events).pumps[id].completed == Audible(c, id)
    decreases |c.pumps[id].strand|, |c.pumps[id].queue|
  {
    hide WebSocketPump.Inv, Step, DrainsTo;
    var p := c.pumps[id];
    if p.strand == [] && p.outstanding.None? {
      events := [];
      DrainedHasWrittenAll(p);
      NothingToDrain(c, id);
    } else {
      var e := if p.strand != [] then Pump(id) else Written(id, true);
      StepKeepsList(c, e);
      StepKeepsPumps(c, e);
      DrainStep(c, id);
      var d := Step(c, e);
      var more := CanDrain(d, id);
      events := [e] + more;
      assert events[1..] == more;
      DrainsOn(c, d, Perform(d, more), id);
      assert Audible(d, id) == Audible(c, id);
    }
  }

  /** A send to a running comm can always be completed on every listed session whose writes did not fail:
      it has then written what it heard before, and this message. */
  lemma {:induction false} SendCanBeWritten(c: Comm, id: nat, data: Bytes) returns (events: seq<Event>)
    requires ListInv(c) && PumpsInv(c) && c.running && id in c.members && !c.pumps[id].failed
    ensures id < |Perform(Step(c, Send(data)), events).pumps|
    ensures Perform(Step(c, Send(data)), events).pumps[id].completed == Audible(c, id) + [data]
  {
    hide WebSocketPump.Inv, Step;
    var d := Step(c, Send(data));
    SendReachesEveryMember(c, data);
    StepKeepsList(c, Send(data));
    StepKeepsPumps(c, Send(data));
    events := CanDrain(d, id);
    assert Audible(d, id) == Audible(c, id) + [data];
  }

  lemma {:induction false} NothingToDrain(c: Comm, id: nat)
    requires id < |c.pumps|
    requires var p := c.pumps[id]; p.strand == [] && p.outstanding.None? && !p.failed && p.completed == p.requested
    ensures DrainsTo(c, c, id)
  {
    assert c.pumps[id := c.pumps[id]] == c.pumps;
  }

  lemma {:induction false} DrainsOn(c: Comm, d: Comm, e: Comm, id: nat)
    requires id < |c.pumps| && id < |d.pumps| && d == c.(pumps := c.pumps[id := d.pumps[id]])
    requires d.pumps[id].requested == c.pumps[id].requested && DrainsTo(d, e, id)
    ensures DrainsTo(c, e, id)
  {
    assert c.pumps[id := d.pumps[id]][id := e.pumps[id]] == c.pumps[id := e.pumps[id]];
  }

  lemma {:induction false} DrainStep(c: Comm, id: nat)
    requires ListInv(c) && PumpsInv(c) && id < |c.pumps| && !c.pumps[id].failed
    requires c.pumps[id].strand != [] || c.pumps[id].outstanding.Some?
    ensures var p := c.pumps[id];
            var d := Step(c, if p.strand != [] then Pump(id) else Written(id, true));
            var q := d.pumps[id];
      && d == c.(pumps := c.pumps[id := q])
      && q.requested == p.requested && !q.failed
      && (p.strand != [] ==> |q.strand| < |p.strand|)
      && (p.strand == [] ==> q.strand == [] && |q.queue| < |p.queue|)
  {
    hide WebSocketPump.Step, OnWrite;
    var p := c.pumps[id];
    if p.strand != [] {
      RunHandlerDoes(p);
    } else {
      CompleteDoes(p, true);
      Completes(p, true);
    }
  }

  // ---------------------------------------------------------------- what a client decodes

  /** Every raw_send of a run was given the encoding of some message, as PduCommRaw::send does. */
  ghost predicate SendsFrames(version: Version, order: Order, events: seq<Event>) {
    forall i | 0 <= i < |events| && events[i].Send? :: IsEncoding(version, order, events[i].data)
  }

  ghost predicate IsEncoding(version: Version, order: Order, data: Bytes) {
    exists m :: Channel.Expressible(version, m) && data == CommRaw.Frame(version, order, m.key, m.data)
  }

  ghost predicate AreFrames(version: Version, order: Order, sends: seq<Message>, frames: seq<Bytes>) {
    && (forall m | m in sends :: Channel.Expressible(version, m))
    && Framing.AllSendable(version, sends)
    && frames == Framing.FrameList(version, order, sends)
  }

  lemma {:induction false} BroadcastsGrow(c: Comm, e: Event)
    ensures Step(c, e).broadcasts == c.broadcasts || (e.Send? && Step(c, e).broadcasts == c.broadcasts + [e.data])
  {
    hide WebSocketPump.Step, OnWrite, PostAll, CloseAll, Without, MarkLeft;
  }

  /** The messages whose encodings were broadcast, in the one global order. */
  lemma {:induction false} BroadcastsAreFrames(version: Version, order: Order, events: seq<Event>) returns (sends: seq<Message>)
    requires SendsFrames(version, order, events)
    ensures AreFrames(version, order, sends, Run(Idle(), events).broadcasts)
  {
    hide Step, CommRaw.Frame, CommRaw.Sendable;
    if events == [] {
      sends := [];
    } else {
      var (front, e) := (events[..|events| - 1], events[|events| - 1]);
      sends := BroadcastsAreFrames(version, order, front);
      BroadcastsGrow(Run(Idle(), front), e);
      if Run(Idle(), events).broadcasts != Run(Idle(), front).broadcasts {
        assert events[|events| - 1].Send?;
        var m :| Channel.Expressible(version, m) && e.data == CommRaw.Frame(version, order, m.key, m.data);
        Channel.FrameListSnoc(version, order, sends, m);
        sends := sends + [m];
      }
    }
  }

  /** When a session left the list, as a number of broadcasts. */
  function LeftAt(c: Comm, id: nat): nat
    requires id < |c.left|
  {
    if c.left[id].Some? then c.left[id].value else |c.broadcasts|
  }

  /** A WebSocket message is a whole frame of PduCommRaw. Whatever prefix of the writes started on a
      session its client has received, its endpoint is handed a prefix of the surviving messages that
      were broadcast while the session was listed, in the order they were sent. */
  lemma {:induction false} ClientsDecodeBroadcasts(version: Version, sender: Order, receiver: Order, events: seq<Event>, id: nat,
                                                   received: seq<Bytes>) returns (sends: seq<Message>)
    requires id < |Run(Idle(), events).pumps| && SendsFrames(version, sender, events)
    requires received <= Run(Idle(), events).pumps[id].started
    ensures var c := Run(Idle(), events);
      && AreFrames(version, sender, sends, c.broadcasts)
      && id < |c.joined| && id < |c.left|
      && c.joined[id] <= LeftAt(c, id) <= |sends|
      && Framing.Messages(version, receiver, received)
         <= Framing.Surviving(version, sends[c.joined[id]..LeftAt(c, id)])
  {
    hide Run, CommRaw.Frame, CommRaw.Sendable, Framing.Messages, Framing.Surviving, WebSocketPump.Inv, Framing.FrameList,
         ListInv;
    BroadcastOrder(events, id);
    sends := BroadcastsAreFrames(version, sender, events);
    var c := Run(Idle(), events);
    HeardIsSlice(version, sender, c, id, sends);
    var heard := sends[c.joined[id]..LeftAt(c, id)];
    MessagesOfPrefix(version, sender, receiver, heard, received);
  }

  lemma {:induction false} HeardIsSlice(version: Version, sender: Order, c: Comm, id: nat, sends: seq<Message>)
    requires ListInv(c) && id < |c.pumps| && AreFrames(version, sender, sends, c.broadcasts)
    ensures id < |c.joined| && id < |c.left| && c.joined[id] <= LeftAt(c, id) <= |sends|
    ensures var heard := sends[c.joined[id]..LeftAt(c, id)];
      && AreFrames(version, sender, heard, Audible(c, id))
  {
    hide CommRaw.Frame, CommRaw.Sendable;
    var heard := sends[c.joined[id]..LeftAt(c, id)];
    forall m | m in heard ensures m in sends {}
    assert Audible(c, id) == c.broadcasts[c.joined[id]..LeftAt(c, id)];
  }

  lemma {:induction false} MessagesOfPrefix(version: Version, sender: Order, receiver: Order, sends: seq<Message>,
                                            received: seq<Bytes>)
    requires (forall m | m in sends :: Channel.Expressible(version, m)) && Framing.AllSendable(version, sends)
    requires received <= Framing.FrameList(version, sender, sends)
    ensures Framing.Messages(version, receiver, received) <= Framing.Surviving(version, sends)
  {
    hide CommRaw.Frame, CommRaw.Sendable, Framing.Messages, Framing.Surviving, Framing.FrameList;
    var all := Framing.FrameList(version, sender, sends);
    Framing.DecodedFrames(version, sender, receiver, sends);
    assert all == received + all[|received|..];
    Framing.MessagesConcat(version, receiver, received, all[|received|..]);
  }
}
