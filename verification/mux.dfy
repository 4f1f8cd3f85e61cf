/** The TCP multiplexer: an accept thread and a non-blocking taker share a list and a counter. */
module Mux {
  import opened Types

  // ---------------------------------------------------------------- std::to_string

  function Digit(d: nat): char
    requires d < 10
  {
    '0' + d as char
  }

  function Decimal(n: nat): string {
    if n < 10 then [Digit(n)] else Decimal(n / 10) + [Digit(n % 10)]
  }

  function Parse(s: string): int {
    if s == [] then 0 else 10 * Parse(s[..|s| - 1]) + (s[|s| - 1] as int - '0' as int)
  }

  lemma {:induction false} ParseDecimal(n: nat)
    ensures Parse(Decimal(n)) == n
  {
    if n < 10 {
      assert [Digit(n)][..0] == [];
    } else {
      ParseDecimal(n / 10);
      assert Decimal(n)[..|Decimal(n)| - 1] == Decimal(n / 10);
    }
  }

  /** The name given to the endpoint of the n-th session: "<mux name>_<n>". */
  function EndpointName(mux: string, n: nat): string {
    mux + "_" + Decimal(n)
  }

  lemma {:induction false} NamesDistinct(mux: string, m: nat, n: nat)
    ensures EndpointName(mux, m) == EndpointName(mux, n) ==> m == n
  {
    if EndpointName(mux, m) == EndpointName(mux, n) {
      assert Decimal(m) == EndpointName(mux, m)[|mux| + 1..];
      assert Decimal(n) == EndpointName(mux, n)[|mux| + 1..];
      ParseDecimal(m);
      ParseDecimal(n);
    }
  }

  // ---------------------------------------------------------------- the shared state

  /** Where the accept thread is: at the guard or in accept, or between push_back and fetch_add. */
  datatype Thread = NoThread | Accepting | Pushed

  /** Results of opening and starting the endpoint made for a session. */
  datatype Outcome = Outcome(open: Status, start: Status)

  /** An endpoint handed to the caller. */
  datatype Handed = Handed(name: string, session: nat)

  /** Who uses the TcpCommMultiplexer: an EndpointCommMultiplexer, or a caller that holds it directly. */
  datatype Owner = Wrapped | Direct

  /** How far an open gets: it never reaches TcpCommMultiplexer::open, its file is refused there, no
      socket can be made, the socket cannot be bound or listened on, or it listens. */
  datatype OpenResult = Rejected | BadFile | NoSocket | NotListening | Listening

  datatype State = State(
    name: string,
    owner: Owner,
    hasComm: bool,          // comm_ of the EndpointCommMultiplexer; a direct owner always has one
    isOpen: bool,
    running: bool,
    joining: bool,          // stop is waiting for the accept thread
    thread: Thread,
    expected: nat,          // expected_clients_
    connected: nat,         // connected_clients_
    accepted: nat,          // sessions made so far; a session is identified by its accept number
    pending: seq<nat>,      // pending_sessions_
    taken: seq<nat>,        // sessions returned by take_sessions, over all calls
    seqNo: nat,             // endpoint_seq_
    handed: seq<Handed>,    // endpoints returned by take_endpoints, over all calls
    lost: seq<nat>)         // sessions whose endpoint failed to open or start

  datatype Action =
    | Open(expected: nat, result: OpenResult)
    | Start
    | Accept                            // accept succeeds and the session is pushed
    | Bump                              // connected_clients_ is incremented
    | Exit                              // the thread sees the flag cleared
    | Take(outcomes: seq<Outcome>)      // take_endpoints, with the results of each open and start;
                                        // a direct owner calls take_sessions
    | Stop                              // stop: clear the flag, close the listening socket, wait
    | Close

  function Fresh(name: string, owner: Owner): State {
    State(name, owner, owner.Direct?, false, false, false, NoThread, 0, 0, 0, [], [], 0, [], [])
  }

  /** is_ready. */
  predicate Ready(s: State) {
    s.hasComm && s.connected >= s.expected
  }

  predicate Succeeds(outcomes: seq<Outcome>, i: nat) {
    i < |outcomes| && outcomes[i] == Outcome(OK, OK)
  }

  /** The endpoints take_endpoints returns for a list of sessions, when `n` names were used before. */
  function HandOut(name: string, n: nat, sessions: seq<nat>, outcomes: seq<Outcome>): seq<Handed> {
    if sessions == [] then [] else
    var front := HandOut(name, n, sessions[..|sessions| - 1], outcomes);
    if Succeeds(outcomes, |sessions| - 1)
    then front + [Handed(EndpointName(name, n + |sessions|), sessions[|sessions| - 1])]
    else front
  }

  function Failures(sessions: seq<nat>, outcomes: seq<Outcome>): seq<nat> {
    if sessions == [] then [] else
    var front := Failures(sessions[..|sessions| - 1], outcomes);
    if Succeeds(outcomes, |sessions| - 1) then front else front + [sessions[|sessions| - 1]]
  }

  /** Sessions whose endpoint opened but did not start. */
  function NotStarted(sessions: seq<nat>, outcomes: seq<Outcome>): seq<nat> {
    if sessions == [] then [] else
    var (front, i) := (NotStarted(sessions[..|sessions| - 1], outcomes), |sessions| - 1);
    if i < |outcomes| && outcomes[i].open == OK && outcomes[i].start != OK then front + [sessions[i]] else front
  }

  /** Exactly the sessions whose endpoint opens and starts are handed out, each under the number it was
      given, and exactly those whose endpoint opens but does not start are closed. */
  lemma {:induction false} HandedIff(name: string, n: nat, sessions: seq<nat>, outcomes: seq<Outcome>, h: Handed, closed: nat)
    ensures h in HandOut(name, n, sessions, outcomes) <==>
      exists i :: Started(sessions, outcomes, i) && h == Handed(EndpointName(name, n + i + 1), sessions[i])
    ensures closed in NotStarted(sessions, outcomes) <==>
      exists i :: OpenedOnly(sessions, outcomes, i) && closed == sessions[i]
  {
    hide EndpointName;
    if sessions == [] {
    } else {
      var last := |sessions| - 1;
      HandedIff(name, n, sessions[..last], outcomes, h, closed);
      assert forall i :: Started(sessions[..last], outcomes, i) <==> Started(sessions, outcomes, i) && i < last;
      assert forall i :: OpenedOnly(sessions[..last], outcomes, i) <==> OpenedOnly(sessions, outcomes, i) && i < last;
      assert Started(sessions, outcomes, last) || !Started(sessions, outcomes, last);
      assert OpenedOnly(sessions, outcomes, last) || !OpenedOnly(sessions, outcomes, last);
    }
  }

  predicate Started(sessions: seq<nat>, outcomes: seq<Outcome>, i: int) {
    0 <= i < |sessions| && i < |outcomes| && outcomes[i].open == OK && outcomes[i].start == OK
  }

  predicate OpenedOnly(sessions: seq<nat>, outcomes: seq<Outcome>, i: int) {
    0 <= i < |sessions| && i < |outcomes| && outcomes[i].open == OK && outcomes[i].start != OK
  }

  /** TcpCommMultiplexer::stop and close. */
  function Stopped(s: State): State {
    s.(running := false, isOpen := false, joining := s.thread != NoThread)
  }

  /** open: an EndpointCommMultiplexer that has a comm is BUSY for ever, a TcpCommMultiplexer only while
      it listens. The expected number is set before any socket call can fail. */
  function Opened(s: State, expected: nat, result: OpenResult): State {
    if (s.owner.Wrapped? && s.hasComm) || s.isOpen || s.joining then s else
    match result
    case Rejected => s
    case BadFile => s.(hasComm := true)
    case NoSocket => s.(hasComm := true, expected := expected)
    case NotListening => Stopped(s.(hasComm := true, expected := expected))
    case Listening => s.(hasComm := true, expected := expected, isOpen := true)
  }

  function Taken(s: State, outcomes: seq<Outcome>): State {
    var t := s.(pending := [], taken := s.taken + s.pending);
    if s.owner.Direct? then t else
    t.(seqNo := s.seqNo + |s.pending|,
       handed := s.handed + HandOut(s.name, s.seqNo, s.pending, outcomes),
       lost := s.lost + Failures(s.pending, outcomes))
  }

  function Step(s: State, a: Action): State {
    match a
    case Open(expected, result) => Opened(s, expected, result)
    case Start =>
      if !s.hasComm || s.running || s.joining then s else s.(running := true, thread := Accepting)
    // Without a listening socket accept fails, except for a client accepted just before it was closed.
    case Accept =>
      if s.thread != Accepting || !(s.isOpen || s.joining) then s
      else s.(pending := s.pending + [s.accepted], accepted := s.accepted + 1, thread := Pushed)
    case Bump => if s.thread != Pushed then s else s.(connected := s.connected + 1, thread := Accepting)
    case Exit => if s.thread != Accepting || s.running then s else s.(thread := NoThread, joining := false)
    case Take(outcomes) => Taken(s, outcomes)
    case Stop => if s.running then Stopped(s) else s
    case Close => if s.joining then s else Stopped(s)
  }

  function Run(s: State, actions: seq<Action>): State {
    if actions == [] then s else Step(Run(s, actions[..|actions| - 1]), actions[|actions| - 1])
  }

  /** The accept numbers from a up to b. */
  function Range(a: nat, b: nat): (r: seq<nat>)
    requires a <= b
    ensures |r| == b - a
    ensures forall i | 0 <= i < b - a :: r[i] == a + i
  {
    seq(b - a, i requires 0 <= i < b - a => a + i)
  }

  ghost predicate Inv(s: State) {
    HandOffInv(s) && ThreadInv(s)
  }

  ghost predicate HandOffInv(s: State) {
    && |s.taken| + |s.pending| == s.accepted
    && s.taken == Range(0, |s.taken|)
    && s.pending == Range(|s.taken|, s.accepted)
    && s.connected + (if s.thread.Pushed? then 1 else 0) == s.accepted
    && s.seqNo == (if s.owner.Wrapped? then |s.taken| else 0)
    && |s.handed| + |s.lost| == s.seqNo
    && (forall i | 0 <= i < |s.handed| ::
          s.handed[i].session < |s.taken| && s.handed[i].name == EndpointName(s.name, s.handed[i].session + 1))
    && (forall i, j | 0 <= i < j < |s.handed| :: s.handed[i].session < s.handed[j].session)
  }

  /** The accept thread lives exactly while the flag is set or stop waits for it, and holds an uncounted
      session only while the socket listens or stop waits. */
  predicate ThreadInv(s: State) {
    && (s.thread != NoThread <==> s.running || s.joining)
    && !(s.running && s.joining)
    && !(s.isOpen && s.joining)
    && (s.thread.Pushed? ==> s.isOpen || s.joining)
    && (s.isOpen || s.running || s.joining ==> s.hasComm)
    && (s.owner.Direct? ==> s.hasComm)
  }

  /** Endpoints made for consecutive sessions carry consecutive numbers. */
  lemma {:induction false} HandOutNames(name: string, n: nat, sessions: seq<nat>, outcomes: seq<Outcome>)
    requires forall i | 0 <= i < |sessions| :: sessions[i] == n + i
    ensures var h := HandOut(name, n, sessions, outcomes);
      && |h| + |Failures(sessions, outcomes)| == |sessions|
      && (forall i | 0 <= i < |h| ::
            n <= h[i].session < n + |sessions| && h[i].name == EndpointName(name, h[i].session + 1))
      && (forall i, j | 0 <= i < j < |h| :: h[i].session < h[j].session)
  {
    if sessions == [] {
    } else {
      HandOutNames(name, n, sessions[..|sessions| - 1], outcomes);
    }
  }

  lemma {:induction false} TakeKeepsInv(s: State, outcomes: seq<Outcome>)
    requires Inv(s)
    ensures Inv(Step(s, Take(outcomes)))
  {
    hide EndpointName, HandOut, Failures;
    if s.owner.Wrapped? {
      HandOutNames(s.name, s.seqNo, s.pending, outcomes);
    }
    assert Range(0, |s.taken|) + Range(|s.taken|, s.accepted) == Range(0, s.accepted);
    assert Range(s.accepted, s.accepted) == [];
  }

  lemma {:induction false} StepKeepsInv(s: State, a: Action)
    requires Inv(s)
    ensures Inv(Step(s, a))
  {
    hide HandOffInv, ThreadInv, Step;
    StepKeepsThread(s, a);
    match a
    case Take(outcomes) => TakeKeepsInv(s, outcomes);
    case Accept => AcceptKeepsHandOff(s);
    case Bump => BumpKeepsHandOff(s);
    case _ => OthersKeepHandOff(s, a);
  }

  lemma {:induction false} StepKeepsThread(s: State, a: Action)
    requires ThreadInv(s)
    ensures ThreadInv(Step(s, a))
  {
    hide HandOut, Failures;
  }

  lemma {:induction false} AcceptKeepsHandOff(s: State)
    requires HandOffInv(s)
    ensures HandOffInv(Step(s, Accept))
  {
    hide EndpointName;
    assert Range(|s.taken|, s.accepted) + [s.accepted] == Range(|s.taken|, s.accepted + 1);
  }

  lemma {:induction false} BumpKeepsHandOff(s: State)
    requires HandOffInv(s)
    ensures HandOffInv(Step(s, Bump))
  {
    hide EndpointName;
  }

  lemma {:induction false} OthersKeepHandOff(s: State, a: Action)
    requires Inv(s) && !a.Take? && !a.Accept? && !a.Bump?
    ensures HandOffInv(Step(s, a))
  {
    hide EndpointName;
    var t := Step(s, a);
    assert (t.name, t.owner, t.connected, t.accepted) == (s.name, s.owner, s.connected, s.accepted);
    assert (t.pending, t.taken, t.seqNo, t.handed, t.lost) == (s.pending, s.taken, s.seqNo, s.handed, s.lost);
    assert t.thread.Pushed? == s.thread.Pushed?;
  }

  lemma {:induction false} RunKeepsInv(name: string, owner: Owner, actions: seq<Action>)
    ensures var s := Run(Fresh(name, owner), actions); Inv(s) && s.name == name && s.owner == owner
  {
    if actions == [] {
    } else {
      hide Inv, Step;
      RunKeepsInv(name, owner, actions[..|actions| - 1]);
      StepKeepsInv(Run(Fresh(name, owner), actions[..|actions| - 1]), actions[|actions| - 1]);
      StepKeepsName(Run(Fresh(name, owner), actions[..|actions| - 1]), actions[|actions| - 1]);
    }
  }

  lemma {:induction false} StepKeepsName(s: State, a: Action)
    ensures Step(s, a).name == s.name && Step(s, a).owner == s.owner
  {
    hide HandOut, Failures;
  }

  lemma {:induction false} StepKeepsReady(s: State, a: Action)
    requires Ready(s) && (s.owner.Wrapped? || !a.Open?)
    ensures Ready(Step(s, a)) && Step(s, a).expected == s.expected
  {
    hide HandOut, Failures;
  }

  lemma {:induction false} TakeWhenReady(s: State, outcomes: seq<Outcome>)
    requires Inv(s) && Ready(s)
    ensures |Step(s, Take(outcomes)).taken| >= s.expected
  {
    hide HandOut, Failures, EndpointName;
  }

  /** Each accepted session is handed out at most once and in accept order, and the counter never
      runs ahead of the list: the counted sessions are pending or taken. */
  lemma {:induction false} HandedOutInAcceptOrder(name: string, owner: Owner, actions: seq<Action>)
    ensures var s := Run(Fresh(name, owner), actions);
      && s.taken + s.pending == Range(0, s.accepted)
      && s.connected <= |s.pending| + |s.taken|
      && (forall i, j | 0 <= i < j < |s.handed| :: s.handed[i].session < s.handed[j].session)
      && (owner.Wrapped? ==> |s.handed| + |s.lost| == |s.taken|)
  {
    RunKeepsInv(name, owner, actions);
    var s := Run(Fresh(name, owner), actions);
    assert Range(0, |s.taken|) + Range(|s.taken|, s.accepted) == Range(0, s.accepted);
  }

  /** Endpoint names are pairwise distinct and numbered by accept order, starting at 1. */
  lemma {:induction false} NamesFollowAcceptOrder(name: string, actions: seq<Action>, i: nat, j: nat)
    requires i < j < |Run(Fresh(name, Wrapped), actions).handed|
    ensures var s := Run(Fresh(name, Wrapped), actions);
      && s.handed[i].name == name + "_" + Decimal(s.handed[i].session + 1)
      && s.handed[i].name != s.handed[j].name
  {
    RunKeepsInv(name, Wrapped, actions);
    var s := Run(Fresh(name, Wrapped), actions);
    NamesDistinct(name, s.handed[i].session + 1, s.handed[j].session + 1);
  }

  /** Readiness once reached stays - for an EndpointCommMultiplexer for ever, for a TcpCommMultiplexer
      used directly until its next open - and from then on one take brings the number of sessions taken
      to at least the expected number. */
  lemma {:induction false} ReadinessIsStable(name: string, owner: Owner, before: seq<Action>, after: seq<Action>,
                                             outcomes: seq<Outcome>)
    requires Ready(Run(Fresh(name, owner), before))
    requires owner.Wrapped? || forall a | a in after :: !a.Open?
    ensures var s := Run(Fresh(name, owner), before);
            var t := Run(s, after);
      && Inv(t) && t.owner == owner && Ready(t) && t.expected == s.expected
      && |Step(t, Take(outcomes)).taken| >= s.expected
  {
    hide Inv, Step, Ready;
    if after == [] {
      RunKeepsInv(name, owner, before);
    } else {
      var t := Run(Run(Fresh(name, owner), before), after[..|after| - 1]);
      ReadinessIsStable(name, owner, before, after[..|after| - 1], outcomes);
      StepKeepsInv(t, after[|after| - 1]);
      StepKeepsName(t, after[|after| - 1]);
      StepKeepsReady(t, after[|after| - 1]);
    }
    TakeWhenReady(Run(Run(Fresh(name, owner), before), after), outcomes);
  }

  /** An EndpointCommMultiplexer is opened at most once: when its first open failed behind the choice of
      a comm, or it was closed, it never listens again. */
  lemma {:induction false} WrappedOpensOnce(s: State, actions: seq<Action>)
    requires s.owner.Wrapped? && s.hasComm && !s.isOpen
    ensures var t := Run(s, actions); t.owner.Wrapped? && t.hasComm && !t.isOpen && t.expected == s.expected
  {
    hide HandOut, Failures;
    if actions != [] {
      WrappedOpensOnce(s, actions[..|actions| - 1]);
    }
  }

  /** The counter is never reset: a TcpCommMultiplexer used directly and opened again is ready at once
      exactly when the sessions accepted over all earlier opens already reach the new expected number. */
  lemma {:induction false} ReopenedReadyIff(name: string, actions: seq<Action>, expected: nat)
    requires var s := Run(Fresh(name, Direct), actions); !s.isOpen && !s.joining
    ensures var s := Run(Fresh(name, Direct), actions);
            var t := Step(s, Open(expected, Listening));
            t.isOpen && (Ready(t) <==> expected <= s.accepted)
  {
    RunKeepsInv(name, Direct, actions);
  }

  /** Such a run: a client is accepted and taken, the multiplexer is closed and opened for one client. It
      is ready before its accept thread exists, and a take returns nothing. */
  lemma {:induction false} ReopenedReadyExample(name: string)
    ensures var once := [Open(1, Listening), Start, Accept, Bump, Take([]), Close, Exit];
            var s := Run(Fresh(name, Direct), once);
            var t := Step(s, Open(1, Listening));
            && !s.isOpen && !s.joining
            && t.isOpen && Ready(t) && t.thread == NoThread && t.pending == [] && t.taken == [0]
  {
    var f := Fresh(name, Direct);
    var a1 := [Open(1, Listening), Start];
    var a2 := a1 + [Accept, Bump];
    var a3 := a2 + [Take([]), Close, Exit];
    assert a3 == [Open(1, Listening), Start, Accept, Bump, Take([]), Close, Exit];
    RunTwo(f, [], Open(1, Listening), Start);
    RunTwo(f, a1, Accept, Bump);
    RunTwo(f, a2, Take([]), Close);
    assert a3[..|a3| - 1] == a2 + [Take([]), Close];
    assert [] + a1 == a1;
    assert Run(f, []) == f;
  }

  lemma {:induction false} RunTwo(s: State, earlier: seq<Action>, a: Action, b: Action)
    ensures Run(s, earlier + [a, b]) == Step(Step(Run(s, earlier), a), b)
  {
    hide Step;
    assert (earlier + [a, b])[..|earlier| + 1] == earlier + [a];
    assert (earlier + [a])[..|earlier|] == earlier;
  }

  /** What an open leaves behind: a refused file changes nothing but the existence of the comm; beyond the
      file the expected number is set, also when the socket then fails, and only a listening socket counts
      as open. BUSY changes nothing. */
  lemma {:induction false} OpenLeaves(s: State, expected: nat, result: OpenResult)
    requires ThreadInv(s)
    ensures var t := Step(s, Open(expected, result));
            var busy := (s.owner.Wrapped? && s.hasComm) || s.isOpen || s.joining;
      && (busy ==> t == s)
      && (!busy ==>
            && t.isOpen == (result == Listening)
            && t.expected == (if result == Rejected || result == BadFile then s.expected else expected)
            && t.hasComm == (s.hasComm || result != Rejected)
            && (result == NotListening ==> !t.running)
            && (result != NotListening ==> t.running == s.running)
            && (t.pending, t.connected, t.accepted) == (s.pending, s.connected, s.accepted))
  {
  }

  /** Nothing but an open makes a comm, sets the expected number or opens the socket. */
  lemma {:induction false} OnlyOpenOpens(s: State, a: Action)
    requires !a.Open?
    ensures var t := Step(s, a); t.hasComm == s.hasComm && t.expected == s.expected && (t.isOpen ==> s.isOpen)
    ensures a.Take? ==> var t := Step(s, a);
            (t.isOpen, t.running, t.joining, t.thread, t.connected, t.accepted)
            == (s.isOpen, s.running, s.joining, s.thread, s.connected, s.accepted)
  {
    hide HandOut, Failures;
  }

  /** start makes an accept thread unless one runs; it accepts, counts and hands out a client. */
  lemma {:induction false} StartedAccepts(s: State)
    requires ThreadInv(s) && s.isOpen && !s.running
    ensures var t := Step(Step(Step(s, Start), Accept), Bump);
            && t.running && t.thread == Accepting && t.accepted == s.accepted + 1 && t.connected == s.connected + 1
            && t.pending == s.pending + [s.accepted]
            && forall outcomes :: (var u := Step(t, Take(outcomes)); u.pending == [] && u.taken == s.taken + s.pending + [s.accepted])
  {
    hide HandOut, Failures;
  }

  /** After stop or close has returned, no client is accepted until the next start. */
  lemma {:induction false} StoppedAcceptsNone(s: State, actions: seq<Action>)
    requires ThreadInv(s) && !s.running && !s.joining && Start !in actions
    ensures var t := Run(s, actions);
            ThreadInv(t) && !t.running && !t.joining && t.accepted == s.accepted && t.connected == s.connected
  {
    hide HandOut, Failures;
    if actions != [] {
      StoppedAcceptsNone(s, actions[..|actions| - 1]);
    }
  }

  /** stop and close never get stuck, and end with the thread gone and the socket closed. */
  lemma {:induction false} StopGetsThrough(s: State, a: Action) returns (rest: seq<Action>)
    requires ThreadInv(s) && !s.joining && (a == Close || (a == Stop && s.running))
    ensures var t := Run(Step(s, a), rest); !t.running && !t.joining && !t.isOpen && t.thread == NoThread
  {
    var u := Step(s, a);
    if u.thread == Accepting {
      rest := [Exit];
      assert rest[..0] == [];
    } else if u.thread == Pushed {
      rest := [Bump, Exit];
      assert [] + rest == rest;
      RunTwo(u, [], Bump, Exit);
    } else {
      rest := [];
    }
  }

  // ---------------------------------------------------------------- the classes

  class TcpCommMultiplexer {
    var pending: seq<nat>
    var connected: nat
    var accepted: nat
    const expected: nat

    constructor (expected: nat)
      ensures pending == [] && connected == 0 && accepted == 0 && this.expected == expected
    {
      pending, connected, accepted := [], 0, 0;
      this.expected := expected;
    }

    /** take_sessions: swap the list out. */
    method TakeSessions() returns (out: seq<nat>)
      modifies this`pending
      ensures out == old(pending) && pending == []
    {
      out := [];
      out, pending := pending, out;
    }
  }

  class EndpointCommMultiplexer {
    const name: string
    var comm: TcpCommMultiplexer?
    var seqNo: nat
    var closed: seq<nat>   // sessions whose endpoint was closed by take_endpoints

    constructor (name: string, comm: TcpCommMultiplexer?)
      ensures this.name == name && this.comm == comm && seqNo == 0 && closed == []
    {
      this.name, this.comm, seqNo, closed := name, comm, 0, [];
    }

    /** take_endpoints: one name per session; sessions whose endpoint fails to open or start are skipped,
        and an endpoint that opened but did not start is closed. */
    method TakeEndpoints(outcomes: seq<Outcome>) returns (endpoints: seq<Handed>)
      modifies this`seqNo, this`closed, comm
      ensures comm == null ==> endpoints == [] && seqNo == old(seqNo) && closed == old(closed)
      ensures comm != null ==>
        && comm.pending == []
        && seqNo == old(seqNo) + |old(comm.pending)|
        && endpoints == HandOut(name, old(seqNo), old(comm.pending), outcomes)
        && closed == old(closed) + NotStarted(old(comm.pending), outcomes)
    {
      endpoints := [];
      if comm == null {
        return;
      }
      var sessions := comm.TakeSessions();
      if sessions == [] {
        return;
      }
      var i := 0;
      while i < |sessions|
        invariant 0 <= i <= |sessions|
        invariant seqNo == old(seqNo) + i
        invariant endpoints == HandOut(name, old(seqNo), sessions[..i], outcomes)
        invariant closed == old(closed) + NotStarted(sessions[..i], outcomes)
        invariant comm.pending == []
      {
        assert sessions[..i + 1][..i] == sessions[..i];
        seqNo := seqNo + 1;
        var endpointName := EndpointName(name, seqNo);
        if i < |outcomes| && outcomes[i].open == OK {
          if outcomes[i].start == OK {
            endpoints := endpoints + [Handed(endpointName, sessions[i])];
          } else {
            closed := closed + [sessions[i]];
          }
        }
        i := i + 1;
      }
      assert sessions[..i] == sessions;
    }
  }
}
