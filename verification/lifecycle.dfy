/** start, stop and close of an endpoint interleaved with the comm's receive thread. */
module Lifecycle {

  /** TcpComm keeps looping until it is stopped; the receive loop of TcpSessionComm also ends by
      itself when its connection does. */
  datatype Kind = Tcp | Session

  /** The receive thread. Ended means finished but not joined. */
  datatype Thread = NotStarted | AtGuard | Reading | InCallback | Exiting | Ended

  /** The thread that calls start, stop and close. Crashed: std::terminate was called. */
  datatype Main = Ready | StartComm | StopComm | Join | StopCache | Crashed

  datatype State = State(
    kind: Kind,
    cacheRunning: bool,
    flag: bool,             // the comm's running flag
    callbackSet: bool,
    thread: Thread,
    main: Main,
    stopped: bool,          // stop or close returned and no later start spawned a thread
    log: seq<bool>)         // for each cache write made by a callback: was the cache running?

  datatype Action =
    | BeginStart | BeginStop | BeginClose | MainStep
    | Guard | Packet | WriteCache | Break | Exit

  /** An endpoint that has just been opened. */
  function Opened(kind: Kind): State {
    State(kind, false, false, true, NotStarted, Ready, true, [])
  }

  function Step(s: State, a: Action): State {
    match a
    // Endpoint::start: the cache first, then the comm.
    case BeginStart => if s.main.Ready? then s.(cacheRunning := true, main := StartComm) else s
    // Endpoint::stop and close: the comm first, then the cache.
    case BeginStop => if s.main.Ready? then s.(main := StopComm) else s
    case BeginClose => if s.main.Ready? then s.(callbackSet := false, main := StopComm) else s
    case MainStep => MainThreadStep(s)
    case _ => ReceiveThreadStep(s, a)
  }

  function MainThreadStep(s: State): State {
    match s.main
    case StartComm =>
      if s.flag then s.(main := Ready)
      else if s.thread.NotStarted? then s.(flag := true, thread := AtGuard, main := Ready, stopped := false)
      else s.(flag := true, main := Crashed)
    case StopComm => if s.flag then s.(flag := false, main := Join) else s.(main := StopCache)
    case Join =>
      if s.thread.NotStarted? || s.thread.Ended? then s.(thread := NotStarted, main := StopCache) else s
    case StopCache => s.(cacheRunning := false, main := Ready, stopped := true)
    case _ => s
  }

  function ReceiveThreadStep(s: State, a: Action): State {
    match a
    case Guard => if !s.thread.AtGuard? then s else s.(thread := if s.flag then Reading else Exiting)
    case Packet => if !s.thread.Reading? then s else s.(thread := if s.callbackSet then InCallback else AtGuard)
    case WriteCache => if !s.thread.InCallback? then s else s.(log := s.log + [s.cacheRunning], thread := AtGuard)
    case Break => if !s.thread.Reading? then s else s.(thread := if s.kind.Tcp? then AtGuard else Exiting)
    case Exit =>
      if !s.thread.Exiting? then s
      else s.(thread := Ended, flag := if s.kind.Session? then false else s.flag)
    case _ => s
  }

  function Run(s: State, actions: seq<Action>): State {
    if actions == [] then s else Step(Run(s, actions[..|actions| - 1]), actions[|actions| - 1])
  }

  predicate Active(t: Thread) {
    t.AtGuard? || t.Reading? || t.InCallback? || t.Exiting?
  }

  ghost predicate Inv(s: State) {
    && (Active(s.thread) ==> s.cacheRunning)
    && (Active(s.thread) && !s.main.Join? && !s.main.Crashed? ==> s.flag)
    && (s.main.Join? || s.main.StopCache? ==> !s.flag)
    && (s.main.StartComm? ==> s.cacheRunning)
    && (s.main.StopCache? ==> !Active(s.thread))
    && (s.stopped && !s.main.Crashed? ==> !s.flag && !Active(s.thread))
    && (s.kind.Tcp? ==> !s.main.Crashed? && (!s.main.Join? ==> (s.thread.NotStarted? <==> !s.flag)))
    && (s.kind.Tcp? && s.thread.Ended? ==> s.main.Join?)
    && (s.kind.Tcp? && s.thread.Exiting? ==> s.main.Join?)
    && (s.main.Crashed? ==> s.kind.Session?)
    && (forall i | 0 <= i < |s.log| :: s.log[i])
  }

  lemma {:induction false} StepKeepsInv(s: State, a: Action)
    requires Inv(s)
    ensures Inv(Step(s, a))
  {
  }

  lemma {:induction false} StepKeepsKind(s: State, a: Action)
    ensures Step(s, a).kind == s.kind
  {
  }

  lemma {:induction false} RunKeepsInv(kind: Kind, actions: seq<Action>)
    ensures Inv(Run(Opened(kind), actions)) && Run(Opened(kind), actions).kind == kind
  {
    if actions == [] {
    } else {
      hide Step, Inv;
      RunKeepsInv(kind, actions[..|actions| - 1]);
      StepKeepsKind(Run(Opened(kind), actions[..|actions| - 1]), actions[|actions| - 1]);
      StepKeepsInv(Run(Opened(kind), actions[..|actions| - 1]), actions[|actions| - 1]);
    }
  }

  /** Over every run, each packet callback finds the cache running: start goes cache then comm,
      stop and close go comm then cache. */
  lemma {:induction false} CallbacksFindCacheRunning(kind: Kind, actions: seq<Action>)
    ensures var s := Run(Opened(kind), actions);
            (forall i | 0 <= i < |s.log| :: s.log[i]) && (s.thread.InCallback? ==> s.cacheRunning)
  {
    RunKeepsInv(kind, actions);
  }

  // ---------------------------------------------------------------- every packet reaches the callback

  /** A packet arrives after the first n actions of a run, while a callback is registered. */
  predicate Arrives(kind: Kind, actions: seq<Action>, n: nat) {
    && n < |actions| && actions[n] == Packet
    && var s := Run(Opened(kind), actions[..n]); s.thread.Reading? && s.callbackSet
  }

  /** How many packets arrive during a run while a callback is registered. */
  function Arrived(kind: Kind, actions: seq<Action>, n: nat): nat
    requires n <= |actions|
  {
    if n == 0 then 0 else Arrived(kind, actions, n - 1) + if Arrives(kind, actions, n - 1) then 1 else 0
  }

  lemma {:induction false} ArrivedPrefix(kind: Kind, actions: seq<Action>, n: nat, m: nat)
    requires n <= m <= |actions|
    ensures Arrived(kind, actions[..m], n) == Arrived(kind, actions, n)
  {
    if n > 0 {
      ArrivedPrefix(kind, actions, n - 1, m);
      assert actions[..m][..n - 1] == actions[..n - 1];
    }
  }

  /** Every packet that arrives while a callback is registered is written to the cache by one callback,
      the last of them perhaps still about to be. */
  lemma {:induction false} EveryPacketCalledBack(kind: Kind, actions: seq<Action>)
    ensures var s := Run(Opened(kind), actions);
            |s.log| + (if s.thread.InCallback? then 1 else 0) == Arrived(kind, actions, |actions|)
  {
    if actions == [] {
    } else {
      hide Step;
      var (front, a) := (actions[..|actions| - 1], actions[|actions| - 1]);
      EveryPacketCalledBack(kind, front);
      ArrivedPrefix(kind, actions, |front|, |front|);
      RunKeepsInv(kind, front);
      CallbackStep(Run(Opened(kind), front), a);
    }
  }

  lemma {:induction false} CallbackStep(s: State, a: Action)
    requires Inv(s)
    ensures var t := Step(s, a);
            |t.log| + (if t.thread.InCallback? then 1 else 0)
            == |s.log| + (if s.thread.InCallback? then 1 else 0)
               + if a == Packet && s.thread.Reading? && s.callbackSet then 1 else 0
    ensures Step(s, a).thread.InCallback? && !s.thread.InCallback? ==> a == Packet && s.thread.Reading? && s.callbackSet
  {
  }

  /** close unregisters the callback for good: no packet that arrives later, even after another start,
      reaches it. */
  lemma {:induction false} CloseUnregisters(s: State, later: seq<Action>)
    requires s.main.Ready?
    ensures !Run(Step(s, BeginClose), later).callbackSet
  {
    if later != [] {
      CloseUnregisters(s, later[..|later| - 1]);
    }
  }

  // ---------------------------------------------------------------- start and stop get through

  /** Actions performed from the first to the last. */
  function Perform(s: State, actions: seq<Action>): State
    decreases |actions|
  {
    if actions == [] then s else Perform(Step(s, actions[0]), actions[1..])
  }

  /** A start of an endpoint whose receive thread is not there - just opened, or stopped by a stop that
      joined it - ends with the cache running, the flag set and the thread at its loop. A packet that then
      arrives reaches the cache. */
  lemma {:induction false} StartRuns(s: State)
    requires s.main.Ready? && s.thread.NotStarted? && !s.flag
    ensures Perform(s, [BeginStart, MainStep])
         == s.(cacheRunning := true, flag := true, thread := AtGuard, main := Ready, stopped := false)
    ensures s.callbackSet ==>
      Perform(s, [BeginStart, MainStep, Guard, Packet, WriteCache])
      == s.(cacheRunning := true, flag := true, thread := AtGuard, main := Ready, stopped := false, log := s.log + [true])
  {
    assert [BeginStart, MainStep][1..] == [MainStep];
    var t := Step(Step(s, BeginStart), MainStep);
    var rest := [Guard, Packet, WriteCache];
    assert [BeginStart, MainStep, Guard, Packet, WriteCache][1..] == [MainStep] + rest;
    assert ([MainStep] + rest)[1..] == rest;
    assert rest[1..] == [Packet, WriteCache];
    assert [Packet, WriteCache][1..] == [WriteCache];
    assert Perform(t, rest) == Perform(Step(t, Guard), [Packet, WriteCache]);
    assert Perform(Step(t, Guard), [Packet, WriteCache]) == Perform(Step(Step(t, Guard), Packet), [WriteCache]);
  }

  /** A start while the receive loop runs is BUSY: it starts the cache and leaves the comm alone. */
  lemma {:induction false} StartAgain(s: State)
    requires s.main.Ready? && s.flag
    ensures Perform(s, [BeginStart, MainStep]) == s.(cacheRunning := true)
  {
    assert [BeginStart, MainStep][1..] == [MainStep];
    PerformOne(Step(s, BeginStart), MainStep);
  }

  /** How the receive thread ends by itself once the flag is cleared. */
  function Ending(kind: Kind, thread: Thread): seq<Action> {
    match thread
    case AtGuard => [Guard, Exit]
    case Reading => if kind.Tcp? then [Break, Guard, Exit] else [Break, Exit]
    case InCallback => [WriteCache, Guard, Exit]
    case Exiting => [Exit]
    case _ => []
  }

  /** stop and close never get stuck: from every state they can be called in, the receive thread can end and they
      return, and then the cache is stopped and the flag is down. A stop that found the flag set has
      joined the thread. */
  lemma {:induction false} StopGetsThrough(s: State, begin: Action) returns (actions: seq<Action>)
    requires Inv(s) && s.main.Ready?
    requires begin == BeginStop || begin == BeginClose
    ensures var t := Perform(s, actions);
      && t.stopped && t.main.Ready? && !t.cacheRunning && !t.flag
      && t.callbackSet == (s.callbackSet && begin == BeginStop)
      && (s.flag ==> t.thread.NotStarted?)
    ensures actions != [] && actions[0] == begin && BeginStart !in actions
  {
    var s1 := Step(s, begin);
    var s2 := Step(s1, MainStep);
    if s.flag {
      var ending := Ending(s.kind, s.thread);
      EndingEnds(s2);
      var s3 := Perform(s2, ending);
      var back := [MainStep, MainStep];
      actions := [begin, MainStep] + (ending + back);
      PerformConcat(s2, ending, back);
      assert back[1..] == [MainStep];
      assert Perform(s3, back) == Step(Step(s3, MainStep), MainStep);
      assert actions[1..] == [MainStep] + (ending + back) && ([MainStep] + (ending + back))[1..] == ending + back;
      assert Perform(s, actions) == Perform(s1, [MainStep] + (ending + back)) == Perform(s2, ending + back);
    } else {
      actions := [begin, MainStep, MainStep];
      assert actions[1..] == [MainStep, MainStep] && [MainStep, MainStep][1..] == [MainStep];
      assert Perform(s1, [MainStep, MainStep]) == Perform(s2, [MainStep]);
    }
  }

  lemma {:induction false} EndingEnds(s: State)
    requires s.main.Join? && !s.flag
    ensures var t := Perform(s, Ending(s.kind, s.thread));
      && (t.thread.Ended? || t.thread.NotStarted?) && t.main.Join? && !t.flag
      && t.callbackSet == s.callbackSet
    ensures BeginStart !in Ending(s.kind, s.thread)
  {
    var e := Ending(s.kind, s.thread);
    if |e| == 1 {
      PerformOne(s, e[0]);
    } else if |e| == 2 {
      PerformConcat(s, [e[0]], [e[1]]);
      PerformOne(s, e[0]);
      PerformOne(Step(s, e[0]), e[1]);
      assert e == [e[0]] + [e[1]];
    } else if |e| == 3 {
      PerformConcat(s, [e[0]], [e[1]] + [e[2]]);
      PerformConcat(Step(s, e[0]), [e[1]], [e[2]]);
      PerformOne(s, e[0]);
      PerformOne(Step(s, e[0]), e[1]);
      PerformOne(Step(Step(s, e[0]), e[1]), e[2]);
      assert e == [e[0]] + ([e[1]] + [e[2]]);
    }
  }

  lemma {:induction false} PerformOne(s: State, a: Action)
    ensures Perform(s, [a]) == Step(s, a)
  {
    hide Step;
    assert [a][1..] == [];
  }

  lemma {:induction false} PerformConcat(s: State, a: seq<Action>, b: seq<Action>)
    ensures Perform(s, a + b) == Perform(Perform(s, a), b)
    decreases |a|
  {
    hide Step;
    if a == [] {
      assert a + b == b;
    } else {
      assert (a + b)[1..] == a[1..] + b;
      PerformConcat(Step(s, a[0]), a[1..], b);
    }
  }

  // ---------------------------------------------------------------- after stop

  /** After stop or close has returned, no callback runs until the endpoint is started again, however
      the remaining steps of the receive thread and further stops and closes interleave. */
  lemma {:induction false} NoCallbackAfterStop(kind: Kind, before: seq<Action>, after: seq<Action>)
    requires var s := Run(Opened(kind), before); s.stopped && s.main.Ready?
    requires BeginStart !in after
    ensures Run(Run(Opened(kind), before), after).log == Run(Opened(kind), before).log
    ensures Run(Run(Opened(kind), before), after).stopped
    ensures var t := Run(Run(Opened(kind), before), after);
            Inv(t) && !t.main.StartComm? && !t.main.Crashed?
  {
    hide Step;
    if after == [] {
      RunKeepsInv(kind, before);
    } else {
      var init := after[..|after| - 1];
      NoCallbackAfterStop(kind, before, init);
      StepKeepsInv(Run(Run(Opened(kind), before), init), after[|after| - 1]);
      QuietStep(Run(Run(Opened(kind), before), init), after[|after| - 1]);
    }
  }

  lemma {:induction false} QuietStep(s: State, a: Action)
    requires Inv(s) && s.stopped && !s.main.StartComm? && !s.main.Crashed? && a != BeginStart
    ensures var t := Step(s, a); t.stopped && t.log == s.log && !t.main.StartComm? && !t.main.Crashed?
  {
  }

  /** Starting and stopping a TcpComm endpoint any number of times never terminates the program. */
  lemma {:induction false} TcpNeverCrashes(actions: seq<Action>)
    ensures !Run(Opened(Tcp), actions).main.Crashed?
  {
    RunKeepsInv(Tcp, actions);
  }

  /** Starting a session comm again terminates the program exactly when its receive loop had ended
      by itself: stop then returns without joining, and a joinable thread is overwritten. */
  lemma {:induction false} SessionRestartCrashesIff(actions: seq<Action>)
    ensures var s := Run(Opened(Session), actions);
            s.main.StartComm? ==> (Step(s, MainStep).main.Crashed? <==> s.thread.Ended?)
  {
    RunKeepsInv(Session, actions);
    EndedMeansFlagDown(actions);
  }

  lemma {:induction false} EndedMeansFlagDown(actions: seq<Action>)
    ensures var s := Run(Opened(Session), actions);
            s.thread.Ended? && !s.main.Crashed? ==> !s.flag
    ensures var s := Run(Opened(Session), actions);
            s.thread.Exiting? && !s.main.Join? && !s.main.Crashed? ==> s.flag
  {
    if actions == [] {
    } else {
      hide Step, Inv;
      EndedMeansFlagDown(actions[..|actions| - 1]);
      RunKeepsInv(Session, actions[..|actions| - 1]);
      EndedStep(Run(Opened(Session), actions[..|actions| - 1]), actions[|actions| - 1]);
    }
  }

  lemma {:induction false} EndedStep(s: State, a: Action)
    requires Inv(s) && s.kind.Session?
    requires s.thread.Ended? && !s.main.Crashed? ==> !s.flag
    requires s.thread.Exiting? && !s.main.Join? && !s.main.Crashed? ==> s.flag
    ensures var t := Step(s, a);
      && (t.thread.Ended? && !t.main.Crashed? ==> !t.flag)
      && (t.thread.Exiting? && !t.main.Join? && !t.main.Crashed? ==> t.flag)
  {
  }

  /** Such a run exists: start, the connection ends, stop, start. */
  lemma {:induction false} SessionRestartExample()
    ensures exists actions :: Run(Opened(Session), actions).main.Crashed?
  {
    hide Run;
    EmptyRun(Opened(Session));
    var s := Opened(Session);
    RunSnoc(s, [], BeginStart);
    var a1 := [] + [BeginStart];
    RunSnoc(s, a1, MainStep);
    var a2 := a1 + [MainStep];
    RunSnoc(s, a2, Guard);
    var a3 := a2 + [Guard];
    RunSnoc(s, a3, Break);
    var a4 := a3 + [Break];
    RunSnoc(s, a4, Exit);
    var a5 := a4 + [Exit];
    assert Run(s, a5) == State(Session, true, false, true, Ended, Ready, false, []);
    RunSnoc(s, a5, BeginStop);
    var a6 := a5 + [BeginStop];
    RunSnoc(s, a6, MainStep);
    var a7 := a6 + [MainStep];
    RunSnoc(s, a7, MainStep);
    var a8 := a7 + [MainStep];
    assert Run(s, a8) == State(Session, false, false, true, Ended, Ready, true, []);
    RunSnoc(s, a8, BeginStart);
    var a9 := a8 + [BeginStart];
    RunSnoc(s, a9, MainStep);
    assert Run(s, a9 + [MainStep]).main.Crashed?;
  }

  lemma {:induction false} EmptyRun(s: State)
    ensures Run(s, []) == s
  {
  }

  lemma {:induction false} RunSnoc(s: State, actions: seq<Action>, a: Action)
    ensures Run(s, actions + [a]) == Step(Run(s, actions), a)
  {
    assert (actions + [a])[..|actions|] == actions;
  }
}
