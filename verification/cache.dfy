/** The two caches, and what each key's contents mean in terms of the history of calls. */
module Cache {
  import opened Types
  import opened Subsequence

  // ---------------------------------------------------------------- calls and their outcomes

  datatype Op =
    | Start
    | Stop
    | Close
    | Write(key: Key, data: Bytes)
    | Read(key: Key, capacity: nat)

  /** What a read reports: a status, received_size where it is assigned, and the bytes copied out. */
  datatype Outcome = Outcome(status: Status, received: Option<nat>, copied: Bytes)

  const DONE: Outcome := Outcome(OK, None, [])
  const REFUSED: Outcome := Outcome(NotRunning, None, [])

  // ---------------------------------------------------------------- PduLatestQueue

  datatype QueueState = QueueState(depth: nat, queues: map<Key, seq<Bytes>>, running: bool)

  function Queued(s: QueueState, key: Key): seq<Bytes> {
    if key in s.queues then s.queues[key] else []
  }

  function QueueWrite(s: QueueState, key: Key, data: Bytes): (QueueState, Outcome) {
    if !s.running then (s, REFUSED) else
    var q := Queued(s, key) + [data];
    (s.(queues := s.queues[key := if |q| > s.depth then q[1..] else q]), DONE)
  }

  function QueueRead(s: QueueState, key: Key, capacity: nat): (QueueState, Outcome) {
    var q := Queued(s, key);
    if !s.running then (s, REFUSED)
    else if q == [] then (s, Outcome(NoEntry, Some(0), []))
    else if capacity < |q[0]| then (s, Outcome(NoSpace, Some(|q[0]|), []))
    else (s.(queues := s.queues[key := q[1..]]), Outcome(OK, Some(|q[0]|), q[0]))
  }

  function QueueStep(s: QueueState, op: Op): (QueueState, Outcome) {
    match op
    case Start => (s.(running := true), DONE)
    case Stop => (s.(running := false), DONE)
    case Close => (s.(queues := map[], running := false), DONE)
    case Write(key, data) => QueueWrite(s, key, data)
    case Read(key, capacity) => QueueRead(s, key, capacity)
  }

  /** The `store.depth` entry of a cache configuration file. */
  datatype DepthConfig = NoFile | NotJson | NotAnInteger | NoDepth | Depth(value: i32)

  class PduLatestQueue {
    var depth: nat
    var queues: map<Key, seq<Bytes>>
    var isRunning: bool

    constructor ()
      ensures State() == QueueState(1, map[], false)
    {
      depth, queues, isRunning := 1, map[], false;
    }

    ghost function State(): QueueState
      reads this
    {
      QueueState(depth, queues, isRunning)
    }

    /** open: a negative depth converts to a huge size_t, and a depth of 0 becomes 1. */
    method Open(config: DepthConfig) returns (err: Status)
      modifies this`depth
      ensures err != OK ==> depth == old(depth)
      ensures err == OK && config.NoDepth? ==> depth == Max(old(depth), 1)
      ensures err == OK && config.Depth? && config.value >= 0 ==> depth == Max(config.value, 1)
      ensures err == OK && config.Depth? && config.value < 0 ==> depth == 0x1_0000_0000_0000_0000 + config.value
      ensures err == (match config case NoFile => FileNotFound case NotJson => InvalidJson
                      case NotAnInteger => InvalidConfig case _ => OK)
    {
      match config {
        case NoFile => return FileNotFound;
        case NotJson => return InvalidJson;
        case NotAnInteger => return InvalidConfig;
        case NoDepth =>
        case Depth(value) => depth := value % 0x1_0000_0000_0000_0000;
      }
      if depth == 0 {
        depth := 1;
      }
      return OK;
    }

    method Close() returns (err: Status)
      modifies this`queues, this`isRunning
      ensures err == OK && State() == QueueStep(old(State()), Op.Close).0
    {
      queues := map[];
      isRunning := false;
      return OK;
    }

    method Start() returns (err: Status)
      modifies this`isRunning
      ensures err == OK && State() == QueueStep(old(State()), Op.Start).0
    {
      isRunning := true;
      return OK;
    }

    method Stop() returns (err: Status)
      modifies this`isRunning
      ensures err == OK && State() == QueueStep(old(State()), Op.Stop).0
    {
      isRunning := false;
      return OK;
    }

    method Write(key: Key, data: Bytes) returns (err: Status)
      modifies this`queues
      ensures (State(), Outcome(err, None, [])) == QueueWrite(old(State()), key, data)
      ensures isRunning == old(isRunning) && depth == old(depth)
      ensures err == if isRunning then OK else NotRunning
      ensures !isRunning ==> queues == old(queues)
      ensures isRunning ==>
        var q := (if key in old(queues) then old(queues)[key] else []) + [data];
        key in queues && queues[key] == if |q| > depth then q[1..] else q
      ensures forall k | k != key :: Queued(State(), k) == old(Queued(State(), k))
    {
      if !isRunning {
        return NotRunning;
      }
      if key !in queues {
        queues := queues[key := []];
      }
      queues := queues[key := queues[key] + [data]];
      if |queues[key]| > depth {
        queues := queues[key := queues[key][1..]];
      }
      ghost var q := Queued(old(State()), key) + [data];
      assert queues == old(queues)[key := if |q| > depth then q[1..] else q];
      return OK;
    }

    /** read: copies the oldest entry to the front of `buffer` and drops it; a buffer that is too
        small changes nothing and is told the needed size. */
    method Read(key: Key, buffer: array<byte>) returns (err: Status, received: Option<nat>)
      modifies this`queues, buffer
      ensures isRunning == old(isRunning) && depth == old(depth)
      ensures err == NotRunning <==> !isRunning
      ensures err == NoEntry <==> isRunning && (key !in old(queues) || old(queues)[key] == [])
      ensures err == NoSpace <==>
        isRunning && key in old(queues) && old(queues)[key] != [] && buffer.Length < |old(queues)[key][0]|
      ensures err == OK <==>
        isRunning && key in old(queues) && old(queues)[key] != [] && buffer.Length >= |old(queues)[key][0]|
      ensures err == NotRunning ==> received == None
      ensures err == NoEntry ==> received == Some(0)
      ensures err == NoSpace || err == OK ==> received == Some(|old(queues)[key][0]|)
      ensures err != OK ==> queues == old(queues) && buffer[..] == old(buffer[..])
      ensures err == OK ==>
        && queues == old(queues)[key := old(queues)[key][1..]]
        && buffer[..] == old(queues)[key][0] + old(buffer[..])[|old(queues)[key][0]|..]
      ensures var (s, o) := QueueRead(old(State()), key, buffer.Length);
              && State() == s && err == o.status && received == o.received
              && buffer[..] == o.copied + old(buffer[..])[|o.copied|..]
      ensures forall k | k != key :: Queued(State(), k) == old(Queued(State(), k))
    {
      if !isRunning {
        return NotRunning, None;
      }
      if key !in queues || queues[key] == [] {
        return NoEntry, Some(0);
      }
      var src := queues[key][0];
      if buffer.Length < |src| {
        return NoSpace, Some(|src|);
      }
      forall i | 0 <= i < |src| {
        buffer[i] := src[i];
      }
      queues := queues[key := queues[key][1..]];
      return OK, Some(|src|);
    }
  }

  // ---------------------------------------------------------------- histories

  function Init(h: seq<Op>): seq<Op>
    requires h != []
  {
    h[..|h| - 1]
  }

  function Last<T>(s: seq<T>): T
    requires s != []
  {
    s[|s| - 1]
  }

  /** The queue cache after a history of calls on a fresh cache of the given depth. */
  function QueueRun(depth: nat, h: seq<Op>): (s: QueueState)
    ensures s.depth == depth
  {
    if h == [] then QueueState(depth, map[], false) else QueueStep(QueueRun(depth, Init(h)), Last(h)).0
  }

  /** Whether the last of start, stop and close in a history was a start. */
  predicate Running(h: seq<Op>) {
    if h == [] then false else
    match Last(h)
    case Start => true
    case Stop => false
    case Close => false
    case _ => Running(Init(h))
  }

  /** All writes to a key that were accepted since the last close. */
  function Accepted(h: seq<Op>, key: Key): seq<Bytes> {
    if h == [] then [] else
    match Last(h)
    case Close => []
    case Write(k, data) =>
      if k == key && Running(Init(h)) then Accepted(Init(h), key) + [data] else Accepted(Init(h), key)
    case _ => Accepted(Init(h), key)
  }

  function Max(a: int, b: int): int {
    if a >= b then a else b
  }

  /** The position of the oldest readable write: after the last one read, and no more than
      `depth` from the end. */
  function Oldest(depth: nat, h: seq<Op>, key: Key): nat {
    Max(Cursor(depth, h, key), |Accepted(h, key)| - depth)
  }

  /** The position after the last write that was read. */
  function Cursor(depth: nat, h: seq<Op>, key: Key): (c: nat)
    ensures c <= |Accepted(h, key)|
    decreases |h|, 0
  {
    if h == [] then 0 else
    match Last(h)
    case Close => 0
    case Read(k, capacity) =>
      var w, start := Accepted(Init(h), key), Max(Cursor(depth, Init(h), key), |Accepted(Init(h), key)| - depth);
      if k == key && Running(Init(h)) && start < |w| && |w[start]| <= capacity
      then start + 1
      else Cursor(depth, Init(h), key)
    case _ => Cursor(depth, Init(h), key)
  }

  /** The unread writes a key may still hold: the last min(depth, unread) of them. */
  function Window(depth: nat, h: seq<Op>, key: Key): seq<Bytes> {
    Accepted(h, key)[Oldest(depth, h, key)..]
  }

  /** What one call does to the queue of a key. */
  predicate QueueMoves(depth: nat, op: Op, key: Key, q: seq<Bytes>, on: bool, q': seq<Bytes>, on': bool) {
    match op
    case Start => q' == q && on'
    case Stop => q' == q && !on'
    case Close => q' == [] && !on'
    case Write(k, data) =>
      && on' == on
      && q' == if k != key || !on then q else if |q| + 1 > depth then (q + [data])[1..] else q + [data]
    case Read(k, capacity) =>
      && on' == on
      && q' == if k == key && on && q != [] && |q[0]| <= capacity then q[1..] else q
  }

  /** What one call does to the log of accepted writes of a key and to its read cursor. */
  predicate LogMoves(depth: nat, op: Op, key: Key, w: seq<Bytes>, c: nat, on: bool, w': seq<Bytes>, c': nat, on': bool) {
    match op
    case Start => w' == w && c' == c && on'
    case Stop => w' == w && c' == c && !on'
    case Close => w' == [] && c' == 0 && !on'
    case Write(k, data) => on' == on && c' == c && w' == if k == key && on then w + [data] else w
    case Read(k, capacity) =>
      var start := Max(c, |w| - depth);
      && on' == on && w' == w
      && c' == if k == key && on && start < |w| && |w[start]| <= capacity then start + 1 else c
  }

  lemma {:induction false} StepQueue(s: QueueState, op: Op, key: Key)
    ensures var t := QueueStep(s, op).0;
            QueueMoves(s.depth, op, key, Queued(s, key), s.running, Queued(t, key), t.running)
  {
  }

  lemma {:induction false} StepLog(depth: nat, h: seq<Op>, key: Key)
    requires h != []
    ensures LogMoves(depth, Last(h), key,
                     Accepted(Init(h), key), Cursor(depth, Init(h), key), Running(Init(h)),
                     Accepted(h, key), Cursor(depth, h, key), Running(h))
  {
  }

  /** The two views move together. */
  lemma {:induction false} WindowMoves(depth: nat, op: Op, key: Key,
                                       q: seq<Bytes>, w: seq<Bytes>, c: nat, on: bool,
                                       q': seq<Bytes>, w': seq<Bytes>, c': nat, on': bool)
    requires depth >= 1 && c <= |w| && c' <= |w'|
    requires q == w[Max(c, |w| - depth)..]
    requires QueueMoves(depth, op, key, q, on, q', on') && LogMoves(depth, op, key, w, c, on, w', c', on')
    ensures q' == w'[Max(c', |w'| - depth)..]
  {
  }

  /** The bounded queue holds, for every key and after every history, the last min(depth, unread)
      of the writes that were accepted and not read, in order. */
  lemma {:induction false} QueueHoldsWindow(depth: nat, h: seq<Op>, key: Key)
    requires depth >= 1
    ensures Queued(QueueRun(depth, h), key) == Window(depth, h, key)
    ensures QueueRun(depth, h).running == Running(h)
  {
    hide Window, QueueRun, Queued, Running;
    if h == [] {
      NothingQueued(depth, key);
    } else {
      QueueHoldsWindow(depth, Init(h), key);
      WindowStep(depth, h, key);
    }
  }

  lemma {:induction false} WindowStep(depth: nat, h: seq<Op>, key: Key)
    requires depth >= 1 && h != []
    requires Queued(QueueRun(depth, Init(h)), key) == Window(depth, Init(h), key)
    requires QueueRun(depth, Init(h)).running == Running(Init(h))
    ensures Queued(QueueRun(depth, h), key) == Window(depth, h, key)
    ensures QueueRun(depth, h).running == Running(h)
  {
    hide Accepted, Cursor, Running, QueueStep, QueueRun, Queued, QueueMoves, LogMoves, Init;
    QueueAndLogMove(depth, h, key);
    WindowMoves(depth, Last(h), key,
                Queued(QueueRun(depth, Init(h)), key), Accepted(Init(h), key), Cursor(depth, Init(h), key), Running(Init(h)),
                Queued(QueueRun(depth, h), key), Accepted(h, key), Cursor(depth, h, key), Running(h));
  }

  lemma {:induction false} NothingQueued(depth: nat, key: Key)
    ensures Queued(QueueRun(depth, []), key) == Window(depth, [], key) == []
    ensures !QueueRun(depth, []).running && !Running([])
  {
  }

  lemma {:induction false} QueueAndLogMove(depth: nat, h: seq<Op>, key: Key)
    requires h != [] && QueueRun(depth, Init(h)).running == Running(Init(h))
    ensures QueueRun(depth, h).running == Running(h)
    ensures QueueMoves(depth, Last(h), key, Queued(QueueRun(depth, Init(h)), key), Running(Init(h)),
                       Queued(QueueRun(depth, h), key), Running(h))
    ensures LogMoves(depth, Last(h), key,
                     Accepted(Init(h), key), Cursor(depth, Init(h), key), Running(Init(h)),
                     Accepted(h, key), Cursor(depth, h, key), Running(h))
  {
    hide Accepted, Cursor, QueueStep, Queued, Running;
    StepQueue(QueueRun(depth, Init(h)), Last(h), key);
    StepLog(depth, h, key);
  }

  /** Its length is min(depth, unread). */
  lemma {:induction false} QueueLength(depth: nat, h: seq<Op>, key: Key)
    requires depth >= 1
    ensures var unread := |Accepted(h, key)| - Cursor(depth, h, key);
            |Queued(QueueRun(depth, h), key)| == if depth <= unread then depth else unread
  {
    hide Accepted, Cursor, Queued, QueueRun;
    QueueHoldsWindow(depth, h, key);
  }

  // ---------------------------------------------------------------- the fate of each write

  /** The positions of the writes that were read, since the last close. */
  function Taken(depth: nat, h: seq<Op>, key: Key): seq<nat> {
    if h == [] then [] else
    var w, c := Accepted(Init(h), key), Cursor(depth, Init(h), key);
    var start := Max(c, |w| - depth);
    match Last(h)
    case Close => []
    case Read(k, capacity) =>
      if k == key && Running(Init(h)) && start < |w| && |w[start]| <= capacity
      then Taken(depth, Init(h), key) + [start] else Taken(depth, Init(h), key)
    case _ => Taken(depth, Init(h), key)
  }

  /** The positions of the writes dropped to make room, since the last close. */
  function Evicted(depth: nat, h: seq<Op>, key: Key): seq<nat> {
    if h == [] then [] else
    var w, c := Accepted(Init(h), key), Cursor(depth, Init(h), key);
    match Last(h)
    case Close => []
    case Write(k, data) =>
      if k == key && Running(Init(h)) && |w| - c >= depth
      then Evicted(depth, Init(h), key) + [|w| - depth] else Evicted(depth, Init(h), key)
    case _ => Evicted(depth, Init(h), key)
  }

  ghost predicate Ascending(s: seq<nat>) {
    forall i, j | 0 <= i < j < |s| :: s[i] < s[j]
  }

  /** Positions below `start` are split between the two lists; every later position is in neither. */
  ghost predicate Splits(taken: seq<nat>, evicted: seq<nat>, start: nat) {
    && Ascending(taken) && Ascending(evicted)
    && |taken| + |evicted| == start
    && (forall i: nat :: i in taken || i in evicted <==> i < start)
    && (forall i: nat :: !(i in taken && i in evicted))
  }

  lemma {:induction false} SplitsMore(taken: seq<nat>, evicted: seq<nat>, start: nat)
    requires Splits(taken, evicted, start)
    ensures Splits(taken + [start], evicted, start + 1) && Splits(taken, evicted + [start], start + 1)
  {
    assert forall i | 0 <= i < |taken| :: taken[i] in taken;
    assert forall i | 0 <= i < |evicted| :: evicted[i] in evicted;
  }

  /** How one call moves the two lists. */
  predicate FateMoves(depth: nat, op: Op, key: Key, w: seq<Bytes>, c: nat, on: bool,
                      taken: seq<nat>, evicted: seq<nat>, taken': seq<nat>, evicted': seq<nat>)
  {
    var start := Max(c, |w| - depth);
    match op
    case Close => taken' == [] && evicted' == []
    case Write(k, data) =>
      && taken' == taken
      && evicted' == if k == key && on && |w| - c >= depth then evicted + [start] else evicted
    case Read(k, capacity) =>
      && evicted' == evicted
      && taken' == if k == key && on && start < |w| && |w[start]| <= capacity then taken + [start] else taken
    case _ => taken' == taken && evicted' == evicted
  }

  lemma {:induction false} StepFate(depth: nat, h: seq<Op>, key: Key)
    requires h != []
    ensures FateMoves(depth, Last(h), key, Accepted(Init(h), key), Cursor(depth, Init(h), key), Running(Init(h)),
                      Taken(depth, Init(h), key), Evicted(depth, Init(h), key),
                      Taken(depth, h, key), Evicted(depth, h, key))
  {
    hide Accepted, Cursor, Running;
  }

  lemma {:induction false} SplitsMove(depth: nat, op: Op, key: Key,
                                      w: seq<Bytes>, c: nat, on: bool, w': seq<Bytes>, c': nat, on': bool,
                                      taken: seq<nat>, evicted: seq<nat>, taken': seq<nat>, evicted': seq<nat>)
    requires depth >= 1 && c <= |w| && c' <= |w'|
    requires Splits(taken, evicted, Max(c, |w| - depth))
    requires LogMoves(depth, op, key, w, c, on, w', c', on')
    requires FateMoves(depth, op, key, w, c, on, taken, evicted, taken', evicted')
    ensures Splits(taken', evicted', Max(c', |w'| - depth))
  {
    hide Splits;
    SplitsMore(taken, evicted, Max(c, |w| - depth));
    OldestMoves(depth, op, key, w, c, on, w', c', on');
    NothingSplit();
  }

  /** Every accepted write was read, or evicted, or is still queued: exactly one of the three. */
  lemma {:induction false} EveryWriteAccountedFor(depth: nat, h: seq<Op>, key: Key)
    requires depth >= 1
    ensures Splits(Taken(depth, h, key), Evicted(depth, h, key), Oldest(depth, h, key))
    ensures |Accepted(h, key)|
         == |Taken(depth, h, key)| + |Evicted(depth, h, key)| + |Queued(QueueRun(depth, h), key)|
  {
    hide Queued, QueueRun, Splits;
    QueueHoldsWindow(depth, h, key);
    SplitsLength(Taken(depth, h, key), Evicted(depth, h, key));
    if h == [] {
      NothingSplit();
    } else {
      hide Accepted, Cursor, Running, Taken, Evicted, Init;
      EveryWriteAccountedFor(depth, Init(h), key);
      SplitsStep(depth, h, key);
    }
  }

  lemma {:induction false} SplitsStep(depth: nat, h: seq<Op>, key: Key)
    requires depth >= 1 && h != []
    requires Splits(Taken(depth, Init(h), key), Evicted(depth, Init(h), key), Oldest(depth, Init(h), key))
    ensures Splits(Taken(depth, h, key), Evicted(depth, h, key), Oldest(depth, h, key))
  {
    hide Accepted, Cursor, Running, LogMoves, FateMoves, Taken, Evicted, Splits, Init;
    StepLog(depth, h, key);
    StepFate(depth, h, key);
    SplitsMove(depth, Last(h), key,
               Accepted(Init(h), key), Cursor(depth, Init(h), key), Running(Init(h)),
               Accepted(h, key), Cursor(depth, h, key), Running(h),
               Taken(depth, Init(h), key), Evicted(depth, Init(h), key),
               Taken(depth, h, key), Evicted(depth, h, key));
  }

  /** A write leaves the unread writes by being read exactly when a read of its key succeeds, and what
      that read copies is the write at the recorded position. */
  lemma {:induction false} TakenByReads(depth: nat, h: seq<Op>, key: Key, capacity: nat)
    requires depth >= 1
    ensures var o := QueueStep(QueueRun(depth, h), Op.Read(key, capacity)).1;
            var start := Oldest(depth, h, key);
      && Taken(depth, h + [Op.Read(key, capacity)], key)
         == (if o.status == OK then Taken(depth, h, key) + [start] else Taken(depth, h, key))
      && (o.status == OK ==> start < |Accepted(h, key)| && o.copied == Accepted(h, key)[start])
      && Evicted(depth, h + [Op.Read(key, capacity)], key) == Evicted(depth, h, key)
  {
    hide Accepted, Cursor, Running, Queued, QueueRun, QueueStep, Taken, Evicted;
    var h' := h + [Op.Read(key, capacity)];
    assert Init(h') == h;
    QueueHoldsWindow(depth, h, key);
    ReadOfQueued(QueueRun(depth, h), key, capacity);
    StepFate(depth, h', key);
  }

  /** A write to a full queue drops the front of the queue, and the dropped write is the one recorded
      as evicted; no other call evicts. */
  lemma {:induction false} EvictedByWrites(depth: nat, h: seq<Op>, key: Key, data: Bytes)
    requires depth >= 1
    ensures var (s, start) := (QueueRun(depth, h), Oldest(depth, h, key));
            var (q, q') := (Queued(s, key), Queued(QueueStep(s, Op.Write(key, data)).0, key));
            var drops := s.running && |q'| == |q|;
      && Evicted(depth, h + [Op.Write(key, data)], key)
         == (if drops then Evicted(depth, h, key) + [start] else Evicted(depth, h, key))
      && (drops ==> start < |Accepted(h, key)| && q != [] && q[0] == Accepted(h, key)[start] && q' == q[1..] + [data])
      && (s.running && !drops ==> q' == q + [data])
      && Taken(depth, h + [Op.Write(key, data)], key) == Taken(depth, h, key)
  {
    hide Accepted, Cursor, Running, Queued, QueueRun, QueueStep, Taken, Evicted;
    var h' := h + [Op.Write(key, data)];
    assert Init(h') == h;
    QueueHoldsWindow(depth, h, key);
    QueueLength(depth, h, key);
    StepQueue(QueueRun(depth, h), Op.Write(key, data), key);
    StepFate(depth, h', key);
  }

  /** Calls on other keys, starts and stops neither read nor evict; close forgets. */
  lemma {:induction false} FateOfOtherCalls(depth: nat, h: seq<Op>, op: Op, key: Key)
    requires (op.Read? || op.Write?) ==> op.key != key
    ensures Taken(depth, h + [op], key) == if op.Close? then [] else Taken(depth, h, key)
    ensures Evicted(depth, h + [op], key) == if op.Close? then [] else Evicted(depth, h, key)
  {
    assert Init(h + [op]) == h;
    StepFate(depth, h + [op], key);
  }

  lemma {:induction false} SplitsLength(taken: seq<nat>, evicted: seq<nat>)
    ensures forall start: nat :: Splits(taken, evicted, start) ==> |taken| + |evicted| == start
  {
  }

  lemma {:induction false} NothingSplit()
    ensures Splits([], [], 0)
  {
  }

  lemma {:induction false} OldestMoves(depth: nat, op: Op, key: Key,
                                       w: seq<Bytes>, c: nat, on: bool, w': seq<Bytes>, c': nat, on': bool)
    requires depth >= 1 && c <= |w| && c' <= |w'|
    requires LogMoves(depth, op, key, w, c, on, w', c', on')
    ensures var start, start' := Max(c, |w| - depth), Max(c', |w'| - depth);
            match op
            case Close => start' == 0
            case Write(k, data) =>
              if k == key && on && |w| - c >= depth then start == |w| - depth && start' == start + 1 else start' == start
            case Read(k, capacity) =>
              if k == key && on && start < |w| && |w[start]| <= capacity then start' == start + 1 else start' == start
            case _ => start' == start
  {
  }

  /** The length of a history up to and including its last close. */
  function Epoch(h: seq<Op>): (p: nat)
    ensures p <= |h|
  {
    if h == [] then 0 else if Last(h).Close? then |h| else Epoch(Init(h))
  }

  /** At some moment since the last close, `depth` later writes to the key had been accepted while
      the write at this position had not been read. */
  ghost predicate Overtaken(depth: nat, h: seq<Op>, key: Key, i: nat) {
    exists p :: Epoch(h) <= p <= |h| && OvertakenAt(depth, h[..p], key, i)
  }

  predicate OvertakenAt(depth: nat, h: seq<Op>, key: Key, i: nat) {
    |Accepted(h, key)| >= i + 1 + depth && Cursor(depth, h, key) <= i
  }

  /** A write is evicted exactly when `depth` later writes to its key arrive while it is unread. */
  lemma {:induction false} EvictedExactlyWhenOvertaken(depth: nat, h: seq<Op>, key: Key, i: nat)
    requires depth >= 1
    ensures i in Evicted(depth, h, key) <==> Overtaken(depth, h, key, i)
  {
    hide Accepted, Cursor, Running;
    if h == [] {
      assert |Accepted(h, key)| == 0 by { EmptyLog(depth, key); }
    } else {
      StepLog(depth, h, key);
      assert h[..|h|] == h;
      if Last(h).Close? {
      } else {
        EvictedExactlyWhenOvertaken(depth, Init(h), key, i);
        OvertakenStep(depth, h, key, i);
        OvertakenNow(depth, h, key, i);
      }
    }
  }

  lemma {:induction false} EmptyLog(depth: nat, key: Key)
    ensures Accepted([], key) == []
  {
  }

  lemma {:induction false} OvertakenStep(depth: nat, h: seq<Op>, key: Key, i: nat)
    requires h != [] && !Last(h).Close?
    ensures Overtaken(depth, h, key, i) <==> Overtaken(depth, Init(h), key, i) || OvertakenAt(depth, h, key, i)
  {
    hide OvertakenAt;
    assert h[..|h|] == h;
    assert forall p | 0 <= p < |h| :: h[..p] == Init(h)[..p];
  }

  /** Being overtaken now adds nothing to being evicted by now. */
  lemma {:induction false} OvertakenNow(depth: nat, h: seq<Op>, key: Key, i: nat)
    requires depth >= 1 && h != [] && !Last(h).Close?
    ensures OvertakenAt(depth, h, key, i) ==> i in Evicted(depth, h, key)
    ensures i in Evicted(depth, h, key) && i !in Evicted(depth, Init(h), key) ==> OvertakenAt(depth, h, key, i)
    ensures i in Evicted(depth, Init(h), key) ==> i in Evicted(depth, h, key)
  {
    hide Accepted, Cursor, Running;
    EveryWriteAccountedFor(depth, h, key);
    TakenBelowCursor(depth, h, key);
    StepLog(depth, h, key);
  }

  lemma {:induction false} TakenBelowCursor(depth: nat, h: seq<Op>, key: Key)
    ensures forall i | i in Taken(depth, h, key) :: i < Cursor(depth, h, key)
  {
    if h == [] {
    } else {
      hide Accepted, Cursor, Running;
      TakenBelowCursor(depth, Init(h), key);
      StepLog(depth, h, key);
    }
  }

  // ---------------------------------------------------------------- what readers see

  /** The data of every write attempted on a key. */
  function Attempts(h: seq<Op>, key: Key): seq<Bytes> {
    if h == [] then []
    else if Last(h).Write? && Last(h).key == key then Attempts(Init(h), key) + [Last(h).data]
    else Attempts(Init(h), key)
  }

  /** The data of every successful read on a key of the queue cache, over the whole history. */
  function QueueReads(depth: nat, h: seq<Op>, key: Key): seq<Bytes> {
    if h == [] then []
    else if Last(h).Read? && Last(h).key == key
            && QueueStep(QueueRun(depth, Init(h)), Last(h)).1.status == OK
    then QueueReads(depth, Init(h), key) + [QueueStep(QueueRun(depth, Init(h)), Last(h)).1.copied]
    else QueueReads(depth, Init(h), key)
  }

  /** Reads of the queue cache on a key are an in-order, duplicate-free selection of the writes
      attempted on that key, whatever starts, stops, closes and other keys come in between. */
  lemma {:induction false} QueueReadsAreOrdered(depth: nat, h: seq<Op>, key: Key)
    ensures Sub(QueueReads(depth, h, key) + Queued(QueueRun(depth, h), key), Attempts(h, key))
    ensures Sub(QueueReads(depth, h, key), Attempts(h, key))
  {
    if h == [] {
    } else {
      hide Sub, Queued;
      QueueReadsAreOrdered(depth, Init(h), key);
      ReadsStep(QueueRun(depth, Init(h)), Last(h), key, QueueReads(depth, Init(h), key), Attempts(Init(h), key));
    }
    SubFront(QueueReads(depth, h, key), Queued(QueueRun(depth, h), key), Attempts(h, key));
  }

  lemma {:induction false} ReadsStep(s: QueueState, op: Op, key: Key, seen: seq<Bytes>, attempts: seq<Bytes>)
    requires Sub(seen + Queued(s, key), attempts) && Sub(seen, attempts)
    ensures var (t, o) := QueueStep(s, op);
            Sub((if op.Read? && op.key == key && o.status == OK then seen + [o.copied] else seen) + Queued(t, key),
                if op.Write? && op.key == key then attempts + [op.data] else attempts)
  {
    hide Sub, QueueStep, Queued;
    StepQueue(s, op, key);
    var q := Queued(s, key);
    match op
    case Close =>
      SubFront(seen, q, attempts);
      assert seen + [] == seen;
    case Write(k, data) => EnqueueKeeps(seen, q, attempts, data);
    case Read(k, capacity) =>
      ReadOfQueued(s, k, capacity);
      if q != [] {
        assert seen + [q[0]] + q[1..] == seen + q;
      }
    case _ =>
  }

  lemma {:induction false} EnqueueKeeps(seen: seq<Bytes>, q: seq<Bytes>, attempts: seq<Bytes>, data: Bytes)
    requires Sub(seen + q, attempts)
    ensures Sub(seen + (q + [data]), attempts + [data])
    ensures Sub(seen + (q + [data])[1..], attempts + [data])
    ensures Sub(seen + q, attempts + [data])
  {
    hide Sub;
    SubSnoc(seen + q, attempts, data);
    var q1 := q + [data];
    assert seen + q + [data] == seen + q1;
    assert seen + q1 == seen + [q1[0]] + q1[1..];
    SubDrop(seen, q1[0], q1[1..], attempts + [data]);
  }

  /** Which answer a read gives when, the size it reports, and what it copies; every answer but OK leaves
      the queue alone. */
  lemma {:induction false} ReadOutcome(s: QueueState, key: Key, capacity: nat)
    ensures var ((t, o), q) := (QueueStep(s, Op.Read(key, capacity)), if key in s.queues then s.queues[key] else []);
            && (o.status == NotRunning <==> !s.running)
            && (o.status == NoEntry <==> s.running && q == [])
            && (o.status == NoSpace <==> s.running && q != [] && |q[0]| > capacity)
            && (o.status == OK <==> s.running && q != [] && |q[0]| <= capacity)
            && (o.status == NotRunning ==> o.received == None)
            && (o.status == NoEntry ==> o.received == Some(0))
            && (o.status == NoSpace || o.status == OK ==> o.received == Some(|q[0]|))
            && (o.status == OK ==> o.copied == q[0] && t == s.(queues := s.queues[key := q[1..]]))
            && (o.status != OK ==> t == s && o.copied == [])
  {
  }

  lemma {:induction false} ReadOfQueued(s: QueueState, key: Key, capacity: nat)
    ensures var (o, q) := (QueueStep(s, Op.Read(key, capacity)).1, Queued(s, key));
            && (o.status == OK <==> s.running && q != [] && |q[0]| <= capacity)
            && (o.status == OK ==> o.copied == q[0])
  {
    ReadOutcome(s, key, capacity);
  }

  // ---------------------------------------------------------------- PduLatestBuffer

  datatype BufferEntry = BufferEntry(data: Bytes, hasData: bool)
  datatype BufferState = BufferState(buffers: map<Key, BufferEntry>, running: bool)

  function BufferStep(s: BufferState, op: Op): (BufferState, Outcome) {
    match op
    case Start => (s.(running := true), DONE)
    case Stop => (s.(running := false), DONE)
    case Close => (s.(buffers := map[], running := false), DONE)
    case Write(key, data) =>
      if !s.running then (s, REFUSED)
      else (s.(buffers := s.buffers[key := BufferEntry(data, true)]), DONE)
    case Read(key, capacity) =>
      if !s.running then (s, REFUSED)
      else if key !in s.buffers || !s.buffers[key].hasData then (s, Outcome(NoEntry, Some(0), []))
      else
        var src := s.buffers[key].data;
        if capacity < |src| then (s, Outcome(NoSpace, Some(|src|), [])) else (s, Outcome(OK, Some(|src|), src))
  }

  class PduLatestBuffer {
    var buffers: map<Key, BufferEntry>
    var isRunning: bool

    constructor ()
      ensures State() == BufferState(map[], false)
    {
      buffers, isRunning := map[], false;
    }

    ghost function State(): BufferState
      reads this
    {
      BufferState(buffers, isRunning)
    }

    method Close() returns (err: Status)
      modifies this
      ensures err == OK && State() == BufferStep(old(State()), Op.Close).0
    {
      buffers := map[];
      isRunning := false;
      return OK;
    }

    method Start() returns (err: Status)
      modifies this`isRunning
      ensures err == OK && State() == BufferStep(old(State()), Op.Start).0
    {
      isRunning := true;
      return OK;
    }

    method Stop() returns (err: Status)
      modifies this`isRunning
      ensures err == OK && State() == BufferStep(old(State()), Op.Stop).0
    {
      isRunning := false;
      return OK;
    }

    method Write(key: Key, data: Bytes) returns (err: Status)
      modifies this`buffers
      ensures (State(), Outcome(err, None, [])) == BufferStep(old(State()), Op.Write(key, data))
      ensures isRunning == old(isRunning) && err == (if isRunning then OK else NotRunning)
      ensures !isRunning ==> buffers == old(buffers)
      ensures isRunning ==> key in buffers && buffers[key] == BufferEntry(data, true)
      ensures forall k | k != key :: k in buffers <==> k in old(buffers)
      ensures forall k | k != key && k in buffers :: buffers[k] == old(buffers)[k]
    {
      if !isRunning {
        return NotRunning;
      }
      if key !in buffers {
        buffers := buffers[key := BufferEntry([], false)];
      }
      buffers := buffers[key := buffers[key].(data := data)];
      buffers := buffers[key := buffers[key].(hasData := true)];
      assert buffers == old(buffers)[key := BufferEntry(data, true)];
      return OK;
    }

    /** read: copies the entry without consuming it. */
    method Read(key: Key, buffer: array<byte>) returns (err: Status, received: Option<nat>)
      modifies buffer
      ensures err == NotRunning <==> !isRunning
      ensures err == NoEntry <==> isRunning && (key !in buffers || !buffers[key].hasData)
      ensures err == NoSpace <==> isRunning && key in buffers && buffers[key].hasData && buffer.Length < |buffers[key].data|
      ensures err == OK <==> isRunning && key in buffers && buffers[key].hasData && buffer.Length >= |buffers[key].data|
      ensures err == NotRunning ==> received == None
      ensures err == NoEntry ==> received == Some(0)
      ensures err == NoSpace || err == OK ==> received == Some(|buffers[key].data|)
      ensures err != OK ==> buffer[..] == old(buffer[..])
      ensures err == OK ==> buffer[..] == buffers[key].data + old(buffer[..])[|buffers[key].data|..]
      ensures var (s, o) := BufferStep(State(), Op.Read(key, buffer.Length));
              && s == State() && err == o.status && received == o.received
              && buffer[..] == o.copied + old(buffer[..])[|o.copied|..]
    {
      if !isRunning {
        return NotRunning, None;
      }
      if key !in buffers || !buffers[key].hasData {
        return NoEntry, Some(0);
      }
      var src := buffers[key].data;
      if buffer.Length < |src| {
        return NoSpace, Some(|src|);
      }
      forall i | 0 <= i < |src| {
        buffer[i] := src[i];
      }
      return OK, Some(|src|);
    }
  }

  function BufferRun(h: seq<Op>): BufferState {
    if h == [] then BufferState(map[], false) else BufferStep(BufferRun(Init(h)), Last(h)).0
  }

  /** What the buffer cache holds for a key, as an optional value. */
  function Buffered(s: BufferState, key: Key): Option<Bytes> {
    if key in s.buffers && s.buffers[key].hasData then Some(s.buffers[key].data) else None
  }

  /** After every history the buffer cache holds, for every key, the last write accepted since the
      last close; reading never consumes it. */
  lemma {:induction false} BufferHoldsLatest(h: seq<Op>, key: Key)
    ensures BufferRun(h).running == Running(h)
    ensures Buffered(BufferRun(h), key)
         == if Accepted(h, key) == [] then None else Some(Last(Accepted(h, key)))
  {
    if h == [] {
    } else {
      BufferHoldsLatest(Init(h), key);
    }
  }

  /** Both caches accept the same writes: wherever the queue cache of depth 1 holds a value, it is
      the value the buffer cache holds. */
  lemma {:induction false} DepthOneQueueAgreesWithBuffer(h: seq<Op>, key: Key)
    ensures var q := Queued(QueueRun(1, h), key);
            q != [] ==> |q| == 1 && Buffered(BufferRun(h), key) == Some(q[0])
  {
    hide Accepted, Cursor, Running, Queued, QueueRun, Buffered, BufferRun;
    QueueHoldsWindow(1, h, key);
    BufferHoldsLatest(h, key);
  }

  /** The data of every successful read on a key of the buffer cache, over the whole history. */
  function BufferReads(h: seq<Op>, key: Key): seq<Bytes> {
    if h == [] then []
    else if Last(h).Read? && Last(h).key == key && BufferStep(BufferRun(Init(h)), Last(h)).1.status == OK
    then BufferReads(Init(h), key) + [BufferStep(BufferRun(Init(h)), Last(h)).1.copied]
    else BufferReads(Init(h), key)
  }

  /** How many writes had been attempted on a key up to the last accepted one. */
  function Newest(h: seq<Op>, key: Key): (n: nat)
    ensures n <= |Attempts(h, key)|
  {
    if h == [] then 0
    else if Last(h).Write? && Last(h).key == key && Running(Init(h)) then |Attempts(h, key)|
    else Newest(Init(h), key)
  }

  /** Successive reads of the buffer cache on a key never go back to an older write: they are read off
      the attempted writes by a position that may stay but only moves forward. */
  lemma {:induction false} BufferReadsNeverGoBack(h: seq<Op>, key: Key)
    ensures Forward(BufferReads(h, key), Attempts(h, key))
  {
    hide Forward, Attempts, BufferReads, Newest;
    ReadsUpToNewest(h, key);
    ForwardExtension(BufferReads(h, key), Attempts(h, key)[..Newest(h, key)], Attempts(h, key));
  }

  /** The attempted writes on a key up to the last accepted one. */
  function Seen(h: seq<Op>, key: Key): seq<Bytes> {
    Attempts(h, key)[..Newest(h, key)]
  }

  /** The buffer cache holds what was written last among them, and reads follow. */
  lemma {:induction false} ReadsUpToNewest(h: seq<Op>, key: Key)
    ensures Forward(BufferReads(h, key), Seen(h, key))
    ensures Accepted(h, key) != [] ==> Seen(h, key) != [] && Last(Seen(h, key)) == Last(Accepted(h, key))
  {
    if h == [] {
    } else {
      hide Forward, BufferReads, Seen, Accepted, Last;
      ReadsUpToNewest(Init(h), key);
      BufferReadsMove(h, key);
      var got, seen := BufferReads(Init(h), key), Seen(Init(h), key);
      if seen != [] && BufferReads(h, key) == got + [seen[|seen| - 1]] {
        ForwardSnoc(got, seen);
      }
      ForwardExtension(got, seen, Seen(h, key));
      LastIs(seen);
    }
  }

  lemma {:induction false} LastIs(s: seq<Bytes>)
    ensures s != [] ==> Last(s) == s[|s| - 1]
  {
  }

  /** What one call does to these lists: a read repeats the last value, a write adds one. */
  lemma {:induction false} BufferReadsMove(h: seq<Op>, key: Key)
    requires h != []
    ensures Seen(Init(h), key) <= Seen(h, key)
    ensures var (w, w') := (Accepted(Init(h), key), Accepted(h, key));
            var (got, got') := (BufferReads(Init(h), key), BufferReads(h, key));
      || (w != [] && w' == w && got' == got + [Last(w)] && Seen(h, key) == Seen(Init(h), key))
      || (w' != [] && got' == got && Seen(h, key) != [] && Last(Seen(h, key)) == Last(w'))
      || ((w' == w || w' == []) && got' == got && Seen(h, key) == Seen(Init(h), key))
  {
    hide BufferRun, BufferStep, Buffered;
    BufferHoldsLatest(Init(h), key);
    BufferReadOutcome(BufferRun(Init(h)), Last(h), key);
    var op := Last(h);
    if op.Write? && op.key == key && Running(Init(h)) {
      assert Seen(h, key) == Attempts(Init(h), key) + [op.data];
    }
  }

  /** The answers of a read of the latest-value cache. */
  lemma {:induction false} BufferOutcome(s: BufferState, key: Key, capacity: nat)
    ensures var ((t, o), v) := (BufferStep(s, Op.Read(key, capacity)), Buffered(s, key));
            && t == s
            && (o.status == NotRunning <==> !s.running)
            && (o.status == NoEntry <==> s.running && v.None?)
            && (o.status == NoSpace <==> s.running && v.Some? && |v.value| > capacity)
            && (o.status == OK <==> s.running && v.Some? && |v.value| <= capacity)
            && (o.status == NotRunning ==> o.received == None)
            && (o.status == NoEntry ==> o.received == Some(0))
            && (o.status == NoSpace || o.status == OK ==> o.received == Some(|v.value|))
            && o.copied == if o.status == OK then v.value else []
  {
  }

  lemma {:induction false} BufferReadOutcome(s: BufferState, op: Op, key: Key)
    ensures op.Read? && op.key == key && BufferStep(s, op).1.status == OK ==>
      Buffered(s, key) == Some(BufferStep(s, op).1.copied)
  {
  }
}
