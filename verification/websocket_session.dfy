/** The write pump of one WebSocket session: a queue drained by asynchronous writes, one at a time. */
module WebSocketPump {
  import opened Types

  /** Work posted to the session's strand, run in order. */
  datatype Handler = WriteHandler(data: Bytes) | CloseHandler

  datatype Session = Session(
    alive: bool,                  // comm_parent_ can still be locked
    queue: seq<Bytes>,            // write_queue_
    isWriting: bool,
    isClosing: bool,
    strand: seq<Handler>,         // handlers posted and not yet run
    outstanding: Option<Bytes>,   // the buffer of the async_write in progress
    overlapped: bool,             // async_write was called during another one
    requested: seq<Bytes>,        // messages do_write posted
    pushed: seq<Bytes>,           // messages put into the queue
    started: seq<Bytes>,          // messages handed to async_write
    completed: seq<Bytes>,        // messages whose write succeeded
    failed: bool,                 // a write failed
    cleared: bool)                // the queue was cleared because the parent was gone

  function Fresh(): Session {
    Session(true, [], false, false, [], None, false, [], [], [], [], false, false)
  }

  datatype Action =
    | DoWrite(data: Bytes)        // any thread sends
    | Close                       // close() is called
    | RunHandler                  // the strand runs its next handler
    | Complete(ok: bool)          // the outstanding async_write completes
    | ParentDies

  function PostClose(s: Session): Session {
    s.(strand := s.strand + [CloseHandler])
  }

  function ProcessWriteQueue(s: Session): Session {
    if s.queue == [] then s.(isWriting := false)
    else if s.alive then
      s.(isWriting := true, outstanding := Some(s.queue[0]), started := s.started + [s.queue[0]],
         overlapped := s.overlapped || s.outstanding.Some?)
    else PostClose(s.(isWriting := false, queue := [], cleared := true))
  }

  function RunNext(s: Session): Session
    requires s.strand != []
  {
    var t := s.(strand := s.strand[1..]);
    match s.strand[0]
    case WriteHandler(data) =>
      if !s.alive then PostClose(t) else
      var wasEmpty := s.queue == [];
      var u := t.(queue := t.queue + [data], pushed := t.pushed + [data]);
      if wasEmpty && !s.isWriting then ProcessWriteQueue(u) else u
    case CloseHandler => t.(isClosing := true)
  }

  function OnWrite(s: Session, ok: bool): Session
    requires s.outstanding.Some?
  {
    var t := s.(isWriting := false, outstanding := None);
    if !ok then PostClose(t.(failed := true)) else
    var u := t.(completed := t.completed + [s.outstanding.value]);
    if !s.alive then PostClose(u).(queue := [], cleared := true)
    else if u.queue == [] then u
    else
      var v := u.(queue := u.queue[1..]);
      if v.queue != [] then ProcessWriteQueue(v) else v
  }

  function Step(s: Session, a: Action): Session {
    match a
    case DoWrite(data) =>
      if s.alive then s.(strand := s.strand + [WriteHandler(data)], requested := s.requested + [data])
      else PostClose(s)
    case Close => PostClose(s)
    case RunHandler => if s.strand == [] then s else RunNext(s)
    case Complete(ok) => if s.outstanding.None? then s else OnWrite(s, ok)
    case ParentDies => s.(alive := false)
  }

  function Run(s: Session, actions: seq<Action>): Session {
    if actions == [] then s else Step(Run(s, actions[..|actions| - 1]), actions[|actions| - 1])
  }

  /** The messages of the write handlers still on the strand. */
  function Pending(strand: seq<Handler>): seq<Bytes> {
    if strand == [] then [] else
    (match strand[0] case WriteHandler(d) => [d] case CloseHandler => []) + Pending(strand[1..])
  }

  lemma {:induction false} PendingSnoc(strand: seq<Handler>, h: Handler)
    ensures Pending(strand + [h]) == Pending(strand) + (match h case WriteHandler(d) => [d] case CloseHandler => [])
  {
    if strand == [] {
      assert strand + [h] == [h] && [h] == [h] + [];
    } else {
      PendingSnoc(strand[1..], h);
      assert (strand + [h])[1..] == strand[1..] + [h];
    }
  }

  /** The message at the front of the queue, while it is being written or after its write failed. */
  function InFlight(s: Session): seq<Bytes> {
    if (s.outstanding.Some? || s.failed) && s.queue != [] then [s.queue[0]] else []
  }

  /** The flags, the outstanding write and the front of the queue agree. */
  ghost predicate FlagInv(s: Session) {
    && !s.overlapped
    && (s.isWriting <==> s.outstanding.Some?)
    && (s.outstanding.Some? ==> s.queue != [] && s.queue[0] == s.outstanding.value && !s.failed)
    && (s.queue != [] && !s.isWriting ==> s.failed)
    && (s.failed ==> s.queue != [])
    && (s.cleared ==> !s.alive && s.queue == [] && s.outstanding.None?)
  }

  /** Where every message is. */
  ghost predicate LogInv(s: Session) {
    && (if s.cleared then s.completed <= s.pushed else s.pushed == s.completed + s.queue)
    && s.started == s.completed + InFlight(s)
    && (if s.alive then s.requested == s.pushed + Pending(s.strand) else s.pushed <= s.requested)
  }

  ghost predicate Inv(s: Session) {
    FlagInv(s) && LogInv(s)
  }

  lemma {:induction false} StepKeepsInv(s: Session, a: Action)
    requires Inv(s)
    ensures Inv(Step(s, a))
  {
    match a
    case DoWrite(data) =>
      PendingSnoc(s.strand, WriteHandler(data));
      PendingSnoc(s.strand, CloseHandler);
    case Close => PendingSnoc(s.strand, CloseHandler);
    case RunHandler => if s.strand != [] { RunNextKeepsInv(s); }
    case Complete(ok) => if s.outstanding.Some? { OnWriteKeepsInv(s, ok); }
    case ParentDies =>
  }

  lemma {:induction false} RunNextKeepsInv(s: Session)
    requires Inv(s) && s.strand != []
    ensures Inv(RunNext(s))
  {
    RunNextKeepsFlags(s);
    RunNextKeepsLog(s);
  }

  lemma {:induction false} RunNextKeepsFlags(s: Session)
    requires FlagInv(s) && s.strand != []
    ensures FlagInv(RunNext(s))
  {
  }

  lemma {:induction false} RunNextKeepsLog(s: Session)
    requires Inv(s) && s.strand != []
    ensures LogInv(RunNext(s))
  {
    PendingSnoc(s.strand[1..], CloseHandler);
    if s.strand[0].WriteHandler? && s.alive {
      var d, t := s.strand[0].data, RunNext(s);
      assert t.strand == s.strand[1..] && t.queue == s.queue + [d] && t.pushed == s.pushed + [d];
      assert Pending(s.strand) == [d] + Pending(s.strand[1..]);
      Reassociate(s.pushed, d, Pending(s.strand[1..]));
      Reassociate(s.completed, d, s.queue);
      if s.queue != [] {
        assert t.queue[0] == s.queue[0];
      }
    } else if s.strand[0].CloseHandler? {
      assert Pending(s.strand) == Pending(s.strand[1..]);
    }
  }

  lemma {:induction false} Reassociate(a: seq<Bytes>, d: Bytes, b: seq<Bytes>)
    ensures a + ([d] + b) == (a + [d]) + b
    ensures a + (b + [d]) == (a + b) + [d]
  {
  }

  lemma {:induction false} OnWriteKeepsInv(s: Session, ok: bool)
    requires Inv(s) && s.outstanding.Some?
    ensures Inv(OnWrite(s, ok))
  {
    OnWriteKeepsFlags(s, ok);
    OnWriteKeepsLog(s, ok);
  }

  lemma {:induction false} OnWriteKeepsFlags(s: Session, ok: bool)
    requires FlagInv(s) && s.outstanding.Some?
    ensures FlagInv(OnWrite(s, ok))
  {
  }

  lemma {:induction false} OnWriteKeepsLog(s: Session, ok: bool)
    requires Inv(s) && s.outstanding.Some?
    ensures LogInv(OnWrite(s, ok))
  {
    hide Pending;
    PendingSnoc(s.strand, CloseHandler);
    assert s.queue == [s.outstanding.value] + s.queue[1..];
    Reassociate(s.completed, s.outstanding.value, s.queue[1..]);
  }

  lemma {:induction false} RunKeepsInv(actions: seq<Action>)
    ensures Inv(Run(Fresh(), actions))
  {
    hide Step;
    if actions == [] {
    } else {
      RunKeepsInv(actions[..|actions| - 1]);
      StepKeepsInv(Run(Fresh(), actions[..|actions| - 1]), actions[|actions| - 1]);
    }
  }

  /** At most one async write is outstanding, it writes the front of the queue, and is_writing_ says
      whether there is one; an idle session with a non-empty queue has had a failed write. */
  lemma {:induction false} OneWriteAtATime(actions: seq<Action>)
    ensures var s := Run(Fresh(), actions);
      && !s.overlapped
      && (s.isWriting <==> s.outstanding.Some?)
      && (s.outstanding.Some? ==> s.queue != [] && s.queue[0] == s.outstanding.value)
      && (s.queue != [] && s.outstanding.None? ==> s.failed)
  {
    RunKeepsInv(actions);
  }

  /** No message is handed to async_write twice and none out of order: the i-th write started is the
      i-th message queued, which is the i-th message posted. */
  lemma {:induction false} WritesStartInOrder(actions: seq<Action>)
    ensures var s := Run(Fresh(), actions);
            s.completed <= s.started <= s.pushed <= s.requested
    ensures var s := Run(Fresh(), actions);
            |s.started| == |s.completed| + (if s.outstanding.Some? || s.failed then 1 else 0)
  {
    hide Run, Pending;
    RunKeepsInv(actions);
    StartedIsPrefix(Run(Fresh(), actions));
  }

  lemma {:induction false} StartedIsPrefix(s: Session)
    requires Inv(s)
    ensures s.completed <= s.started <= s.pushed <= s.requested
  {
    hide Pending;
    if s.queue != [] {
      assert s.queue == [s.queue[0]] + s.queue[1..];
      Reassociate(s.completed, s.queue[0], s.queue[1..]);
    }
  }

  /** While the parent lives nothing is lost: posted messages are the completed writes, then the
      queue, then the handlers still to run, even after a failed write. */
  lemma {:induction false} NothingLostWhileParentLives(actions: seq<Action>)
    ensures var s := Run(Fresh(), actions);
            s.alive ==> s.requested == s.completed + s.queue + Pending(s.strand)
  {
    RunKeepsInv(actions);
  }

  /** After a failed write the session never writes again, whatever is posted to it. */
  lemma {:induction false} FailureIsFinal(before: seq<Action>, after: seq<Action>)
    requires Run(Fresh(), before).failed
    ensures var t := Run(Run(Fresh(), before), after);
            Inv(t) && t.failed && t.started == Run(Fresh(), before).started
            && t.completed == Run(Fresh(), before).completed
  {
    if after == [] {
      RunKeepsInv(before);
    } else {
      hide Step;
      FailureIsFinal(before, after[..|after| - 1]);
      StepKeepsInv(Run(Run(Fresh(), before), after[..|after| - 1]), after[|after| - 1]);
      FailedStep(Run(Run(Fresh(), before), after[..|after| - 1]), after[|after| - 1]);
    }
  }

  lemma {:induction false} FailedStep(s: Session, a: Action)
    requires FlagInv(s) && s.failed
    ensures var t := Step(s, a); t.failed && t.started == s.started && t.completed == s.completed
  {
  }

  /** Inside a handler the parent has been locked, so the branch of process_write_queue for a dead
      parent is never taken: the queue is only ever cleared by on_write. */
  lemma {:induction false} ClearedOnlyByOnWrite(actions: seq<Action>, a: Action)
    ensures var s := Run(Fresh(), actions);
            !s.cleared && Step(s, a).cleared ==>
              a == Complete(true) && !s.alive && s.outstanding.Some? && Step(s, a).completed == s.completed + [s.outstanding.value]
  {
    RunKeepsInv(actions);
  }

  // ---------------------------------------------------------------- what one handler does

  /** One run of the strand takes exactly the front handler. A write is queued behind what is there and
      starts at once if and only if the session is idle with an empty queue; a close marks the session and
      touches nothing else; with the parent gone a write only posts a close. */
  lemma {:induction false} RunHandlerDoes(s: Session)
    requires FlagInv(s) && s.strand != []
    ensures var (t, h) := (Step(s, RunHandler), s.strand[0]);
      && (h == CloseHandler ==> t == s.(strand := s.strand[1..], isClosing := true))
      && (h.WriteHandler? && !s.alive ==> t == s.(strand := s.strand[1..] + [CloseHandler]))
      && (h.WriteHandler? && s.alive ==>
            && t.strand == s.strand[1..] && t.queue == s.queue + [h.data] && t.pushed == s.pushed + [h.data]
            && t.completed == s.completed && t.alive && t.failed == s.failed && t.requested == s.requested
            && (s.queue == [] ==> t.outstanding == Some(h.data) && t.started == s.started + [h.data])
            && (s.queue != [] ==> t.outstanding == s.outstanding && t.started == s.started))
  {
  }

  /** Calls from outside only post to the strand, behind what is there. */
  lemma {:induction false} PostDoes(s: Session, data: Bytes)
    ensures Step(s, Action.DoWrite(data)) ==
      if s.alive then s.(strand := s.strand + [WriteHandler(data)], requested := s.requested + [data])
      else s.(strand := s.strand + [CloseHandler])
    ensures Step(s, Action.Close) == s.(strand := s.strand + [CloseHandler])
  {
  }

  /** Once the parent is gone nothing more is requested or handed to async_write, whatever happens; the
      write in progress may still complete, which clears the queue. */
  lemma {:induction false} DeadParentStartsNothing(s: Session, actions: seq<Action>)
    requires Inv(s)
    ensures var t := Run(Step(s, ParentDies), actions);
            Inv(t) && !t.alive && t.started == s.started && t.requested == s.requested
  {
    if actions == [] {
      StepKeepsInv(s, ParentDies);
    } else {
      hide Inv, Step;
      DeadParentStartsNothing(s, actions[..|actions| - 1]);
      var t := Run(Step(s, ParentDies), actions[..|actions| - 1]);
      StepKeepsInv(t, actions[|actions| - 1]);
      DeadStep(t, actions[|actions| - 1]);
    }
  }

  lemma {:induction false} DeadStep(s: Session, a: Action)
    requires FlagInv(s) && !s.alive
    ensures var t := Step(s, a); !t.alive && t.started == s.started && t.requested == s.requested
    ensures a == Complete(true) && s.outstanding.Some? ==>
      Step(s, a) == s.(isWriting := false, outstanding := None, completed := s.completed + [s.outstanding.value],
                       queue := [], cleared := true, strand := s.strand + [CloseHandler])
    ensures a == Complete(false) && s.outstanding.Some? ==>
      Step(s, a) == s.(isWriting := false, outstanding := None, failed := true, strand := s.strand + [CloseHandler])
  {
  }

  /** A successful completion counts the front message as written and starts the next one; a failed one
      keeps the message and starts nothing. */
  lemma {:induction false} CompleteDoes(s: Session, ok: bool)
    requires FlagInv(s) && s.outstanding.Some? && s.alive
    ensures var t := Step(s, Complete(ok));
      && t.alive && t.requested == s.requested && t.pushed == s.pushed
      && (ok ==>
            && t.completed == s.completed + [s.outstanding.value] && t.queue == s.queue[1..]
            && t.strand == s.strand && t.failed == s.failed
            && t.outstanding == if t.queue == [] then None else Some(t.queue[0]))
      && (!ok ==>
            && t.completed == s.completed && t.queue == s.queue && t.outstanding.None? && t.failed
            && t.strand == s.strand + [CloseHandler])
  {
  }

  /** A session with nothing posted, nothing outstanding and no failed write has written everything. */
  lemma {:induction false} DrainedHasWrittenAll(s: Session)
    requires Inv(s) && s.alive && !s.failed && s.strand == [] && s.outstanding.None?
    ensures s.queue == [] && s.completed == s.requested
  {
  }

  // ---------------------------------------------------------------- the class

  class WebSocketSession {
    var parentAlive: bool
    var writeQueue: seq<Bytes>
    var isWriting: bool
    var isClosing: bool
    var strand: seq<Handler>
    var outstanding: Option<Bytes>
    ghost var overlapped: bool
    ghost var requested: seq<Bytes>
    ghost var pushed: seq<Bytes>
    ghost var started: seq<Bytes>
    ghost var completed: seq<Bytes>
    ghost var failed: bool
    ghost var cleared: bool

    constructor ()
      ensures State() == Fresh()
    {
      parentAlive, writeQueue, isWriting, isClosing, strand, outstanding := true, [], false, false, [], None;
      overlapped, requested, pushed, started, completed, failed, cleared := false, [], [], [], [], false, false;
    }

    ghost function State(): Session
      reads this
    {
      Session(parentAlive, writeQueue, isWriting, isClosing, strand, outstanding, overlapped,
              requested, pushed, started, completed, failed, cleared)
    }

    method CloseSession()
      modifies this`strand
      ensures State() == Step(old(State()), Action.Close)
    {
      strand := strand + [CloseHandler];
    }

    method DoWrite(data: Bytes)
      modifies this
      ensures State() == Step(old(State()), Action.DoWrite(data))
    {
      if parentAlive {
        strand := strand + [WriteHandler(data)];
        requested := requested + [data];
      } else {
        CloseSession();
      }
    }

    /** The strand runs the handler posted first. */
    method RunNextHandler()
      requires strand != []
      modifies this
      ensures State() == RunNext(old(State()))
    {
      var handler := strand[0];
      strand := strand[1..];
      match handler
      case WriteHandler(data) =>
        if parentAlive {
          var wasEmpty := writeQueue == [];
          writeQueue := writeQueue + [data];
          pushed := pushed + [data];
          if wasEmpty && !isWriting {
            ProcessQueue();
          }
        } else {
          CloseSession();
        }
      case CloseHandler =>
        if isClosing {
          return;
        }
        isClosing := true;
    }

    method ProcessQueue()
      modifies this
      ensures State() == ProcessWriteQueue(old(State()))
    {
      if writeQueue == [] {
        isWriting := false;
        return;
      }
      if parentAlive {
        isWriting := true;
        overlapped := overlapped || outstanding.Some?;
        outstanding := Some(writeQueue[0]);
        started := started + [writeQueue[0]];
      } else {
        isWriting := false;
        writeQueue := [];
        cleared := true;
        CloseSession();
      }
    }

    /** on_write; `removeMe` tells the parent to drop the session from its list. */
    method WriteDone(ok: bool) returns (removeMe: bool)
      requires Inv(State()) && outstanding.Some?
      modifies this
      ensures State() == OnWrite(old(State()), ok) && Inv(State())
      ensures removeMe <==> !ok && parentAlive
    {
      OnWriteKeepsInv(State(), ok);
      ghost var written := outstanding.value;
      isWriting := false;
      outstanding := None;
      if !ok {
        failed := true;
        removeMe := parentAlive;
        CloseSession();
        return;
      }
      removeMe := false;
      completed := completed + [written];
      if parentAlive {
        writeQueue := writeQueue[1..];
        if writeQueue != [] {
          ProcessQueue();
        }
      } else {
        CloseSession();
        writeQueue := [];
        cleared := true;
      }
    }
  }
}
