/** The TCP comms: partial reads and writes, the three frame-reading loops, and the two outer loops. */
module Tcp {
  import opened Types
  import opened ByteOrder
  import opened PacketCodec
  import opened CommRaw
  import opened Framing

  // ---------------------------------------------------------------- the operating system's side

  /** What the kernel will hand to recv: segments of bytes with EAGAIN anywhere between them. */
  datatype Arrival = Segment(bytes: Bytes) | NotYet

  /** What recv answers once the segments are used up: 0 or an errno other than EAGAIN. */
  datatype Ending = PeerClosed | ReadFailed

  datatype RecvResult = Received(bytes: Bytes) | Closed | Again | Failed

  /** All the bytes that will ever arrive. */
  function Flatten(arrivals: seq<Arrival>): Bytes {
    if arrivals == [] then []
    else (if arrivals[0].Segment? then arrivals[0].bytes else []) + Flatten(arrivals[1..])
  }

  /** A connected socket seen from the reading side. */
  class InSocket {
    var arrivals: seq<Arrival>
    const ending: Ending

    constructor (arrivals: seq<Arrival>, ending: Ending)
      requires forall a | a in arrivals :: a.Segment? ==> a.bytes != []
      ensures this.arrivals == arrivals && this.ending == ending
    {
      this.arrivals := arrivals;
      this.ending := ending;
    }

    ghost predicate Valid()
      reads this
    {
      forall a | a in arrivals :: a.Segment? ==> a.bytes != []
    }

    ghost function Stream(): Bytes
      reads this
    {
      Flatten(arrivals)
    }

    /** recv(fd, buf, want, 0): any positive part of what has arrived, or EAGAIN, or the end. */
    method Recv(want: nat) returns (r: RecvResult)
      requires Valid() && want > 0
      modifies this
      ensures Valid()
      ensures r.Received? ==> 0 < |r.bytes| <= want && old(Stream()) == r.bytes + Stream()
      ensures r.Again? ==> Stream() == old(Stream())
      ensures r.Closed? || r.Failed? ==> old(Stream()) == [] && Stream() == []
      ensures r.Received? || r.Again? ==> |arrivals| + |Stream()| < old(|arrivals| + |Stream()|)
    {
      if arrivals == [] {
        return if ending.PeerClosed? then Closed else Failed;
      }
      var head := arrivals[0];
      match head
      case NotYet =>
        arrivals := arrivals[1..];
        return Again;
      case Segment(bytes) =>
        if |bytes| <= want {
          arrivals := arrivals[1..];
          return Received(bytes);
        }
        var rest := Segment(bytes[want..]);
        assert [rest] + arrivals[1..] == arrivals[0 := rest];
        SplitSegment(arrivals, want);
        arrivals := arrivals[0 := rest];
        return Received(bytes[..want]);
    }
  }

  lemma {:induction false} SplitSegment(arrivals: seq<Arrival>, want: nat)
    requires arrivals != [] && arrivals[0].Segment? && want <= |arrivals[0].bytes|
    ensures Flatten(arrivals) == arrivals[0].bytes[..want] + Flatten(arrivals[0 := Segment(arrivals[0].bytes[want..])])
  {
    var b := arrivals[0].bytes;
    assert b == b[..want] + b[want..];
    assert arrivals[0 := Segment(b[want..])][1..] == arrivals[1..];
  }

  /** One answer of send: a positive count, 0, EAGAIN, or another errno. */
  datatype SendResult = Took(count: nat) | TookNone | SendAgain | SendFailed

  /** A connected socket seen from the writing side; `wire` is everything the kernel has accepted. */
  class OutSocket {
    var script: seq<SendResult>
    var wire: Bytes

    constructor (script: seq<SendResult>)
      ensures this.script == script && wire == []
    {
      this.script := script;
      wire := [];
    }

    /** send(fd, buf, size, 0); the connection is lost when the script ends. */
    method Send(bytes: Bytes) returns (r: SendResult)
      requires bytes != []
      modifies this
      ensures r.Took? ==> 0 < r.count <= |bytes| && wire == old(wire) + bytes[..r.count]
      ensures !r.Took? ==> wire == old(wire)
      ensures old(script) != [] ==> script == old(script)[1..]
      ensures r.Took? || r.SendAgain? ==> old(script) != []
      ensures r == (if old(script) == [] then SendFailed
                    else if old(script)[0].Took? && old(script)[0].count > 0
                    then Took(if old(script)[0].count <= |bytes| then old(script)[0].count else |bytes|)
                    else if old(script)[0].Took? then TookNone else old(script)[0])
    {
      if script == [] {
        return SendFailed;
      }
      var head := script[0];
      script := script[1..];
      match head
      case Took(count) =>
        if count == 0 {
          return TookNone;
        }
        var n := if count <= |bytes| then count else |bytes|;
        wire := wire + bytes[..n];
        return Took(n);
      case other => return other;
    }
  }

  // ---------------------------------------------------------------- read_data and write_data

  /** read_data: fills exactly the requested part of the buffer, or fails with the stream used up. */
  method ReadData(sock: InSocket, buffer: array<byte>, offset: nat, size: nat) returns (err: Status)
    requires sock.Valid() && offset + size <= buffer.Length
    modifies sock, buffer
    ensures sock.Valid()
    ensures err == OK <==> |old(sock.Stream())| >= size
    ensures err == OK ==> buffer[..offset + size] == old(buffer[..offset]) + old(sock.Stream())[..size]
    ensures err == OK ==> sock.Stream() == old(sock.Stream())[size..]
    ensures err != OK ==> err == IoError && sock.Stream() == []
    ensures forall i | offset + size <= i < buffer.Length :: buffer[i] == old(buffer[i])
  {
    hide Flatten, InSocket.Valid, InSocket.Stream;
    ghost var (all, front) := (sock.Stream(), buffer[..offset]);
    var total := 0;
    while total < size
      invariant sock.Valid()
      invariant 0 <= total <= size && total <= |all|
      invariant sock.Stream() == all[total..]
      invariant buffer[..offset + total] == front + all[..total]
      invariant forall i | offset + size <= i < buffer.Length :: buffer[i] == old(buffer[i])
      decreases |sock.arrivals| + |sock.Stream()|
    {
      var r := sock.Recv(size - total);
      match r
      case Received(bytes) =>
        CopyInto(buffer, offset + total, bytes);
        TakeMore(front, all, total, bytes, sock.Stream());
        total := total + |bytes|;
      case Closed => return IoError;
      case Again =>
      case Failed => return IoError;
    }
    return OK;
  }

  lemma {:induction false} TakeMore(front: Bytes, all: Bytes, total: nat, bytes: Bytes, rest: Bytes)
    requires total <= |all| && all[total..] == bytes + rest
    ensures total + |bytes| <= |all|
    ensures front + all[..total] + bytes == front + all[..total + |bytes|] && all[total + |bytes|..] == rest
  {
    assert all == all[..total] + (bytes + rest);
    assert rest == all[total..][|bytes|..];
  }

  method CopyInto(buffer: array<byte>, at: nat, bytes: Bytes)
    requires at + |bytes| <= buffer.Length
    modifies buffer
    ensures buffer[..at + |bytes|] == old(buffer[..at]) + bytes
    ensures forall i | at + |bytes| <= i < buffer.Length :: buffer[i] == old(buffer[i])
  {
    forall i | 0 <= i < |bytes| {
      buffer[at + i] := bytes[i];
    }
  }

  /** How many of the next `size` bytes write_data gets accepted under a script of answers. */
  function Written(script: seq<SendResult>, size: nat): (n: nat)
    ensures n <= size
    decreases |script|
  {
    if size == 0 || script == [] then 0
    else match script[0]
         case Took(count) =>
           var k := if count <= size then count else size;
           if count == 0 then 0 else k + Written(script[1..], size - k)
         case SendAgain => Written(script[1..], size)
         case _ => 0
  }

  /** The bytes accepted by a script of answers that are all positive counts or EAGAIN. */
  function AcceptedBy(script: seq<SendResult>): nat {
    if script == [] then 0 else (if script[0].Took? then script[0].count else 0) + AcceptedBy(script[1..])
  }

  predicate KeepsGoing(r: SendResult) {
    (r.Took? && r.count > 0) || r.SendAgain?
  }

  /** The first n answers are positive counts and EAGAIN, and accept at least `size` bytes. */
  predicate Accepts(script: seq<SendResult>, size: nat, n: int) {
    0 <= n <= |script| && (forall i | 0 <= i < n :: KeepsGoing(script[i])) && AcceptedBy(script[..n]) >= size
  }

  function CountOf(r: SendResult): nat {
    if r.Took? then r.count else 0
  }

  lemma {:induction false} AcceptsOneMore(script: seq<SendResult>, size: nat, left: nat, n: int)
    requires script != [] && left == if CountOf(script[0]) >= size then 0 else size - CountOf(script[0])
    requires n >= 0
    ensures KeepsGoing(script[0]) ==> (Accepts(script[1..], left, n) <==> Accepts(script, size, n + 1))
  {
    var tail := script[1..];
    if n < |script| {
      assert script[..n + 1][0] == script[0] && script[..n + 1][1..] == tail[..n];
      assert forall i | 0 <= i < n :: tail[i] == script[i + 1];
      assert forall i | 0 < i < n + 1 :: script[i] == tail[i - 1];
    }
  }

  /** Everything is written if and only if the answers up to some point are positive counts and EAGAIN
      and accept that much: EAGAIN and short writes never make write_data fail. */
  lemma {:induction false} WrittenAllIff(script: seq<SendResult>, size: nat)
    ensures Written(script, size) == size <==> exists n :: Accepts(script, size, n)
    decreases |script|
  {
    hide Accepts, AcceptedBy;
    if size == 0 || script == [] {
      AcceptsAtOnce(script, size);
    } else {
      var left := if CountOf(script[0]) >= size then 0 else size - CountOf(script[0]);
      WrittenAllIff(script[1..], left);
      if n :| Accepts(script[1..], left, n) && KeepsGoing(script[0]) {
        NotNegative(script[1..], left, n);
        AcceptsOneMore(script, size, left, n);
      }
      if n :| Accepts(script, size, n) {
        NeedsOne(script, size, n);
        AcceptsOneMore(script, size, left, n - 1);
      }
    }
  }

  lemma {:induction false} AcceptsAtOnce(script: seq<SendResult>, size: nat)
    requires size == 0 || script == []
    ensures size == 0 ==> Accepts(script, size, 0)
    ensures size > 0 ==> !exists n :: Accepts(script, size, n)
  {
    assert script[..0] == [];
  }

  lemma {:induction false} NotNegative(script: seq<SendResult>, size: nat, n: int)
    requires Accepts(script, size, n)
    ensures n >= 0
  {
  }

  lemma {:induction false} NeedsOne(script: seq<SendResult>, size: nat, n: int)
    requires size > 0 && Accepts(script, size, n)
    ensures n > 0 && script != [] && KeepsGoing(script[0])
  {
  }

  /** write_data: puts the whole buffer on the wire, or a proper prefix of it and fails. */
  method WriteData(sock: OutSocket, data: Bytes) returns (err: Status)
    modifies sock
    ensures old(sock.wire) <= sock.wire
    ensures sock.wire[|old(sock.wire)|..] <= data
    ensures err == OK <==> sock.wire == old(sock.wire) + data
    ensures err != OK ==> err == IoError
    ensures |sock.wire| == |old(sock.wire)| + Written(old(sock.script), |data|)
  {
    ghost var before := sock.wire;
    var total := 0;
    while total < |data|
      invariant 0 <= total <= |data|
      invariant total + Written(sock.script, |data| - total) == Written(old(sock.script), |data|)
      invariant sock.wire == before + data[..total]
      decreases |sock.script|, |data| - total
    {
      var r := sock.Send(data[total..]);
      match r
      case Took(count) =>
        assert data[..total + count] == data[..total] + data[total..][..count];
        total := total + count;
      case TookNone => return IoError;
      case SendAgain =>
      case SendFailed => return IoError;
    }
    assert data[..total] == data;
    return OK;
  }

  // ---------------------------------------------------------------- the frame loops

  /** The checks of the running flag still to come that find it set, after a connection carrying
      `frames` complete frames was read: one check per frame and one for the failing read. */
  function GuardsAfter(guards: nat, frames: nat): nat {
    if guards > frames then guards - frames - 1 else 0
  }

  /** One round of server_loop's v1 branch: a raw packet, or None where the source breaks. */
  method ReadFrameV1(sock: InSocket) returns (packet: Option<Bytes>)
    requires sock.Valid()
    modifies sock
    ensures sock.Valid()
    ensures var s := old(sock.Stream());
            match FrameHead(V1, s)
            case Whole(n) => if n <= |s| then packet == Some(s[..n]) && sock.Stream() == s[n..] else packet.None?
            case _ => packet.None?
  {
    hide Flatten, ReadLe32;
    ghost var s := sock.Stream();
    var headerLenBuf := new byte[4];
    var err := ReadData(sock, headerLenBuf, 0, 4);
    if err != OK {
      return None;
    }
    assert headerLenBuf[..] == s[..4];
    SameWord(headerLenBuf[..], s);
    var headerLen := ReadLe32(headerLenBuf[..]);
    if headerLen == 0 || headerLen > MAX_V1_PACKET {
      return None;
    }
    var packetBuf := new byte[4 + headerLen];
    CopyInto(packetBuf, 0, headerLenBuf[..]);
    assert packetBuf[..4] == s[..4];
    err := ReadData(sock, packetBuf, 4, headerLen);
    if err != OK {
      return None;
    }
    TwoReads(s, 4, headerLen);
    assert packetBuf[..] == packetBuf[..4 + headerLen] == s[..4 + headerLen];
    return Some(packetBuf[..]);
  }

  lemma {:induction false} SameWord(word: Bytes, s: Bytes)
    requires |s| >= 4 && word == s[..4]
    ensures ReadLe32(word) == ReadLe32(s)
  {
  }

  lemma {:induction false} TwoReads(s: Bytes, a: nat, b: nat)
    requires a + b <= |s|
    ensures s[..a] + s[a..][..b] == s[..a + b]
    ensures s[a..][b..] == s[a + b..]
  {
  }

  /** The v2 branch of server_loop and recv_loop_: the body is appended to the header buffer. */
  method ReadFrameV2(order: Order, sock: InSocket) returns (packet: Option<Bytes>)
    requires sock.Valid()
    modifies sock
    ensures sock.Valid()
    ensures var s := old(sock.Stream());
            match FrameHead(V2, s)
            case Whole(n) => if n <= |s| then packet == Some(s[..n]) && sock.Stream() == s[n..] else packet.None?
            case _ => packet.None?
  {
    hide Flatten, ReadLe32, LoadMeta, ToLe32;
    ghost var s := sock.Stream();
    var header := new byte[META_SIZE];
    var err := ReadData(sock, header, 0, META_SIZE);
    if err != OK {
      return None;
    }
    var headerBuf := header[..];
    assert headerBuf == s[..META_SIZE];
    var bodyLen := ToLe32(order, LoadMeta(order, headerBuf).bodyLen);
    AnnouncedLength(order, headerBuf, s);
    if bodyLen > 0 {
      var bodyBuf := new byte[bodyLen];
      err := ReadData(sock, bodyBuf, 0, bodyLen);
      if err != OK {
        return None;
      }
      assert bodyBuf[..] == s[META_SIZE..][..bodyLen];
      headerBuf := headerBuf + bodyBuf[..];
    }
    TwoReads(s, META_SIZE, bodyLen);
    return Some(headerBuf);
  }

  /** The v2 branch of client_loop: header and body are joined into a third buffer. */
  method ReadFrameV2Client(order: Order, sock: InSocket) returns (packet: Option<Bytes>)
    requires sock.Valid()
    modifies sock
    ensures sock.Valid()
    ensures var s := old(sock.Stream());
            match FrameHead(V2, s)
            case Whole(n) => if n <= |s| then packet == Some(s[..n]) && sock.Stream() == s[n..] else packet.None?
            case _ => packet.None?
  {
    hide Flatten, ReadLe32, LoadMeta, ToLe32;
    ghost var s := sock.Stream();
    var headerBuf := new byte[META_SIZE];
    var err := ReadData(sock, headerBuf, 0, META_SIZE);
    if err != OK {
      return None;
    }
    assert headerBuf[..] == s[..META_SIZE];
    var bodyLen := ToLe32(order, LoadMeta(order, headerBuf[..]).bodyLen);
    AnnouncedLength(order, headerBuf[..], s);
    var bodyBuf := new byte[bodyLen];
    if bodyLen > 0 {
      err := ReadData(sock, bodyBuf, 0, bodyLen);
      if err != OK {
        return None;
      }
    }
    assert bodyBuf[..] == s[META_SIZE..][..bodyLen];
    TwoReads(s, META_SIZE, bodyLen);
    return Some(headerBuf[..] + bodyBuf[..]);
  }

  lemma {:induction false} AnnouncedLength(order: Order, header: Bytes, s: Bytes)
    requires |s| >= META_SIZE && header == s[..META_SIZE]
    ensures FrameHead(V2, s) == Whole(META_SIZE + ToLe32(order, LoadMeta(order, header).bodyLen))
  {
    hide ReadLe32, LoadMeta, ToLe32;
    LoadedBodyLen(order, header);
    HeadOfExtension(V2, header, s[META_SIZE..]);
    assert s == header + s[META_SIZE..];
  }

  /** What a sequence of connections (None: accept or connect failed) makes a loop hand over,
      when the running flag is found set `guards` more times. */
  function Served(version: Version, streams: seq<Option<Bytes>>, guards: nat): (frames: seq<Bytes>)
    decreases |streams|
  {
    if guards == 0 || streams == [] then [] else
    match streams[0]
    case None => Served(version, streams[1..], guards - 1)
    case Some(s) =>
      var all := Frames(version, s);
      all[..Min(guards - 1, |all|)] + Served(version, streams[1..], GuardsAfter(guards - 1, |all|))
  }

  /** The frames of each connection, one connection after the other. */
  function PerConnection(version: Version, streams: seq<Option<Bytes>>): seq<Bytes> {
    if streams == [] then [] else
    (match streams[0] case None => [] case Some(s) => Frames(version, s)) + PerConnection(version, streams[1..])
  }

  /** Checks of the running flag needed to serve every connection to its end. */
  function GuardsNeeded(version: Version, streams: seq<Option<Bytes>>): nat {
    if streams == [] then 0 else
    (match streams[0] case None => 1 case Some(s) => |Frames(version, s)| + 2) + GuardsNeeded(version, streams[1..])
  }

  /** Whenever the loop is stopped, it has handed over a prefix of the frames of the individual
      connections, and all of them if it was never stopped: bytes left over from one connection
      are never joined with bytes of the next. */
  lemma {:induction false} ServedIsPerConnection(version: Version, streams: seq<Option<Bytes>>, guards: nat)
    ensures Served(version, streams, guards) <= PerConnection(version, streams)
    ensures guards >= GuardsNeeded(version, streams) ==> Served(version, streams, guards) == PerConnection(version, streams)
    decreases |streams|
  {
    hide Frames;
    if guards != 0 && streams != [] {
      hide Served, PerConnection, GuardsNeeded;
      UnfoldServed(version, streams, guards);
      match streams[0]
      case None => ServedIsPerConnection(version, streams[1..], guards - 1);
      case Some(s) =>
        var all := Frames(version, s);
        var left := GuardsAfter(guards - 1, |all|);
        ServedIsPerConnection(version, streams[1..], left);
        JoinConnections(all, Min(guards - 1, |all|), Served(version, streams[1..], left), PerConnection(version, streams[1..]));
    }
  }

  lemma {:induction false} UnfoldServed(version: Version, streams: seq<Option<Bytes>>, guards: nat)
    requires guards > 0 && streams != []
    ensures Served(version, streams[1..], 0) == []
    ensures streams[0].None? ==>
      && Served(version, streams, guards) == Served(version, streams[1..], guards - 1)
      && PerConnection(version, streams) == PerConnection(version, streams[1..])
      && GuardsNeeded(version, streams) == 1 + GuardsNeeded(version, streams[1..])
    ensures streams[0].Some? ==>
      var all := Frames(version, streams[0].value);
      && Served(version, streams, guards)
         == all[..Min(guards - 1, |all|)] + Served(version, streams[1..], GuardsAfter(guards - 1, |all|))
      && PerConnection(version, streams) == all + PerConnection(version, streams[1..])
      && GuardsNeeded(version, streams) == |all| + 2 + GuardsNeeded(version, streams[1..])
  {
    hide Frames;
    if streams[0].None? {
      assert PerConnection(version, streams) == [] + PerConnection(version, streams[1..]);
    }
  }

  lemma {:induction false} JoinConnections(all: seq<Bytes>, k: nat, served: seq<Bytes>, rest: seq<Bytes>)
    requires k <= |all| && served <= rest
    requires k < |all| ==> served == []
    ensures all[..k] + served <= all + rest
    ensures k == |all| && served == rest ==> all[..k] + served == all + rest
  {
    if k == |all| {
      assert all[..k] == all;
    } else {
      assert all[..k] + served == all[..k];
    }
  }

  lemma {:induction false} ServedStep(version: Version, streams: seq<Option<Bytes>>, i: nat, guards: nat, done: seq<Bytes>, all: seq<Bytes>)
    requires i < |streams| && done + Served(version, streams[i..], guards) == all
    ensures guards == 0 ==> done == all
    ensures guards > 0 && streams[i].None? ==> done + Served(version, streams[i + 1..], guards - 1) == all
    ensures guards > 0 && streams[i].Some? ==>
      var got := Frames(version, streams[i].value);
      done + got[..Min(guards - 1, |got|)] + Served(version, streams[i + 1..], GuardsAfter(guards - 1, |got|)) == all
  {
    hide Frames;
    assert streams[i..][1..] == streams[i + 1..];
  }

  lemma {:induction false} ServedNothing(version: Version, streams: seq<Option<Bytes>>, i: nat, guards: nat, done: seq<Bytes>, all: seq<Bytes>)
    requires i <= |streams| && (guards == 0 || i == |streams|) && done + Served(version, streams[i..], guards) == all
    ensures done == all
  {
  }

  /** TcpComm: one connection at a time, as server or as client. */
  class TcpComm {
    const version: Version
    const order: Order
    const direction: Direction
    var guards: nat
    var connected: bool
    var fd: OutSocket?
    var frames: seq<Bytes>

    constructor (version: Version, order: Order, direction: Direction)
      ensures this.version == version && this.order == order && this.direction == direction
      ensures guards == 0 && !connected && fd == null && frames == []
    {
      this.version, this.order, this.direction := version, order, direction;
      guards, connected, fd, frames := 0, false, null, [];
    }

    /** A read of is_running_flag_ by the receive thread; another thread clears the flag at any time,
        which `guards` counts down to. */
    method IsRunning() returns (running: bool)
      modifies this`guards
      ensures running == (old(guards) > 0)
      ensures guards == if running then old(guards) - 1 else 0
    {
      running := guards > 0;
      if running {
        guards := guards - 1;
      }
    }

    /** The inner loop of server_loop. */
    method ServeConnection(sock: InSocket)
      requires sock.Valid()
      modifies this`guards, this`frames, sock
      ensures var all := Frames(version, old(sock.Stream()));
              && frames == old(frames) + all[..Min(old(guards), |all|)]
              && guards == GuardsAfter(old(guards), |all|)
    {
      hide Frames, FrameHead, Flatten;
      ghost var all := Frames(version, sock.Stream());
      ghost var done := 0;
      var running := IsRunning();
      while running
        invariant sock.Valid()
        invariant done <= |all| && Frames(version, sock.Stream()) == all[done..]
        invariant frames == old(frames) + all[..done]
        invariant guards + done + (if running then 1 else 0) == old(guards)
        invariant !running ==> guards == 0
        decreases guards, running
      {
        ghost var s := sock.Stream();
        NextOf(version, s, all, done);
        var packet;
        if version == V1 {
          packet := ReadFrameV1(sock);
        } else {
          packet := ReadFrameV2(order, sock);
        }
        if packet.None? {
          break;
        }
        frames := frames + [packet.value];
        done := done + 1;
        running := IsRunning();
      }
    }

    /** The inner loop of client_loop. */
    method ServeAsClient(sock: InSocket)
      requires sock.Valid()
      modifies this`guards, this`frames, sock
      ensures var all := Frames(version, old(sock.Stream()));
              && frames == old(frames) + all[..Min(old(guards), |all|)]
              && guards == GuardsAfter(old(guards), |all|)
    {
      hide Frames, FrameHead, Flatten;
      ghost var all := Frames(version, sock.Stream());
      ghost var done := 0;
      var running := IsRunning();
      while running
        invariant sock.Valid()
        invariant done <= |all| && Frames(version, sock.Stream()) == all[done..]
        invariant frames == old(frames) + all[..done]
        invariant guards + done + (if running then 1 else 0) == old(guards)
        invariant !running ==> guards == 0
        decreases guards, running
      {
        ghost var s := sock.Stream();
        NextOf(version, s, all, done);
        var packet;
        if version == V1 {
          packet := ReadFrameV1(sock);
        } else {
          packet := ReadFrameV2Client(order, sock);
        }
        if packet.None? {
          break;
        }
        frames := frames + [packet.value];
        done := done + 1;
        running := IsRunning();
      }
    }

    /** server_loop: accept, serve, close, accept again. */
    method ServerLoop(connections: seq<Connection>)
      requires forall c | c in connections :: c.Valid()
      modifies this`guards, this`frames, this`connected, this`fd
      ensures frames == old(frames) + Served(version, Streams(connections), old(guards))
      ensures connected == if AnyReached(connections, old(guards)) then false else old(connected)
      ensures fd == if AnyReached(connections, old(guards)) then null else old(fd)
    {
      hide Frames, Flatten, Served, AnyConnected, AnyReached, ReachedSoFar;
      var i := 0;
      ReachedNone(connections, guards);
      ghost var all := Served(version, Streams(connections), guards);
      ghost var done := [];
      while i < |connections|
        invariant 0 <= i <= |connections|
        invariant frames == old(frames) + done
        invariant done + Served(version, Streams(connections)[i..], guards) == all
        invariant ReachedSoFar(connections, i, old(guards), guards)
        invariant connected == if AnyConnected(connections[..i]) then false else old(connected)
        invariant fd == if AnyConnected(connections[..i]) then null else old(fd)
      {
        ServedStep(version, Streams(connections), i, guards, done, all);
        ghost var before := guards;
        var running := IsRunning();
        if !running {
          break;
        }
        match connections[i] {
          case Refused =>
          case Connected(arrivals, ending, script) =>
            assert connections[i].Valid();
            var sock := new InSocket(arrivals, ending);
            fd := new OutSocket(script);
            connected := true;
            ServeConnection(sock);
            ghost var got := Frames(version, Flatten(arrivals));
            done := done + got[..Min(before - 1, |got|)];
            connected := false;
            fd := null;
        }
        ReachedNext(connections, i, old(guards), before, guards);
        i := i + 1;
      }
      ReachedAtEnd(connections, i, old(guards), guards);
      ServedNothing(version, Streams(connections), i, guards, done, all);
    }

    /** client_loop: the same, except that is_connected_ stays set after a disconnection. */
    method ClientLoop(connections: seq<Connection>)
      requires forall c | c in connections :: c.Valid()
      modifies this`guards, this`frames, this`connected, this`fd
      ensures frames == old(frames) + Served(version, Streams(connections), old(guards))
      ensures connected <==> old(connected) || AnyReached(connections, old(guards))
      ensures fd == if old(guards) > 0 && connections != [] then null else old(fd)
    {
      hide Frames, Flatten, Served, AnyConnected, AnyReached, ReachedSoFar;
      var i := 0;
      ReachedNone(connections, guards);
      ghost var all := Served(version, Streams(connections), guards);
      ghost var done := [];
      while i < |connections|
        invariant 0 <= i <= |connections|
        invariant frames == old(frames) + done
        invariant done + Served(version, Streams(connections)[i..], guards) == all
        invariant ReachedSoFar(connections, i, old(guards), guards)
        invariant connected <==> old(connected) || AnyConnected(connections[..i])
        invariant fd == if i > 0 then null else old(fd)
        invariant i > 0 ==> old(guards) > 0
        invariant i == 0 ==> guards == old(guards)
      {
        ServedStep(version, Streams(connections), i, guards, done, all);
        ghost var before := guards;
        var running := IsRunning();
        if !running {
          break;
        }
        match connections[i] {
          case Refused =>
            fd := null;
          case Connected(arrivals, ending, script) =>
            assert connections[i].Valid();
            var sock := new InSocket(arrivals, ending);
            fd := new OutSocket(script);
            connected := true;
            ServeAsClient(sock);
            ghost var got := Frames(version, Flatten(arrivals));
            done := done + got[..Min(before - 1, |got|)];
            fd := null;
        }
        ReachedNext(connections, i, old(guards), before, guards);
        i := i + 1;
      }
      ReachedAtEnd(connections, i, old(guards), guards);
      ServedNothing(version, Streams(connections), i, guards, done, all);
    }

    /** PduCommRaw::send on top of raw_send: one frame, written while the send lock is held. */
    method Send(key: Key, data: Bytes) returns (err: Status)
      requires Sendable(version, key, data)
      modifies fd
      ensures fd == null ==> err == NotRunning
      ensures fd != null && direction == In ==> err == InvalidArgument && unchanged(fd)
      ensures fd != null && direction != In ==>
        && old(fd.wire) <= fd.wire
        && fd.wire[|old(fd.wire)|..] <= Frame(version, order, key, data)
        && |fd.wire| == |old(fd.wire)| + Written(old(fd.script), |Frame(version, order, key, data)|)
        && (err == OK <==> fd.wire == old(fd.wire) + Frame(version, order, key, data))
        && (err != OK ==> err == IoError)
    {
      var encoded := Frame(version, order, key, data);
      if fd == null {
        return NotRunning;
      }
      if direction == In {
        return InvalidArgument;
      }
      err := WriteData(fd, encoded);
    }
  }

  /** The life of one connection, or a failed attempt to get one. */
  datatype Connection = Refused | Connected(arrivals: seq<Arrival>, ending: Ending, script: seq<SendResult>) {
    predicate Valid() {
      Connected? ==> forall a | a in arrivals :: a.Segment? ==> a.bytes != []
    }
  }

  predicate AnyConnected(connections: seq<Connection>) {
    exists k :: 0 <= k < |connections| && connections[k].Connected?
  }

  /** Some connection comes about before the flag is cleared: the first one is made by an iteration that
      still finds it set. */
  predicate AnyReached(connections: seq<Connection>, guards: nat) {
    exists k :: 0 <= k < |connections| && k < guards && connections[k].Connected? && !AnyConnected(connections[..k])
  }

  /** After i iterations, `guards` checks of the flag are left of the `start` there were: each refused
      attempt took one, until the first connection. */
  ghost predicate ReachedSoFar(connections: seq<Connection>, i: nat, start: nat, guards: nat) {
    && i <= |connections|
    && (if AnyConnected(connections[..i]) then AnyReached(connections, start) else i <= start && guards == start - i)
  }

  lemma {:induction false} ReachedNone(connections: seq<Connection>, guards: nat)
    ensures !AnyConnected(connections[..0]) && ReachedSoFar(connections, 0, guards, guards)
  {
  }

  lemma {:induction false} ReachedNext(connections: seq<Connection>, i: nat, start: nat, guards: nat, after: nat)
    requires i < |connections| && ReachedSoFar(connections, i, start, guards) && guards > 0
    requires connections[i].Refused? ==> after == guards - 1
    ensures ReachedSoFar(connections, i + 1, start, after)
    ensures AnyConnected(connections[..i + 1]) <==> AnyConnected(connections[..i]) || connections[i].Connected?
  {
    assert connections[..i + 1] == connections[..i] + [connections[i]];
    if connections[i].Connected? {
      assert connections[..i + 1][i].Connected?;
    }
    if AnyConnected(connections[..i]) {
      var k :| 0 <= k < i && connections[..i][k].Connected?;
      assert connections[..i + 1][k].Connected?;
    }
  }

  lemma {:induction false} ReachedAtEnd(connections: seq<Connection>, i: nat, start: nat, guards: nat)
    requires ReachedSoFar(connections, i, start, guards) && (i == |connections| || guards == 0)
    ensures AnyConnected(connections[..i]) <==> AnyReached(connections, start)
  {
    if k :| 0 <= k < |connections| && k < start && connections[k].Connected? && !AnyConnected(connections[..k]) && k < i {
      assert connections[..i][k].Connected?;
    }
  }

  function Streams(connections: seq<Connection>): (streams: seq<Option<Bytes>>)
    ensures |streams| == |connections|
  {
    seq(|connections|, i requires 0 <= i < |connections| =>
      if connections[i].Refused? then None else Some(Flatten(connections[i].arrivals)))
  }

  /** TcpSessionComm: the comm of one session accepted by the multiplexer. */
  class TcpSessionComm {
    const version: Version
    const order: Order
    var guards: nat
    var isRunning: bool
    var frames: seq<Bytes>

    constructor (version: Version, order: Order)
      ensures this.version == version && this.order == order && guards == 0 && !isRunning && frames == []
    {
      this.version, this.order := version, order;
      guards, isRunning, frames := 0, false, [];
    }

    method IsRunning() returns (running: bool)
      modifies this`guards
      ensures running == (old(guards) > 0)
      ensures guards == if running then old(guards) - 1 else 0
    {
      running := guards > 0;
      if running {
        guards := guards - 1;
      }
    }

    /** recv_loop_: the same frames as server_loop reads; the flag is cleared when it ends. */
    method RecvLoop(sock: InSocket)
      requires sock.Valid()
      modifies this`guards, this`frames, this`isRunning, sock
      ensures var all := Frames(version, old(sock.Stream()));
              && frames == old(frames) + all[..Min(old(guards), |all|)]
              && guards == GuardsAfter(old(guards), |all|)
      ensures !isRunning
    {
      hide Frames, FrameHead, Flatten;
      ghost var all := Frames(version, sock.Stream());
      ghost var done := 0;
      var running := IsRunning();
      while running
        invariant sock.Valid()
        invariant done <= |all| && Frames(version, sock.Stream()) == all[done..]
        invariant frames == old(frames) + all[..done]
        invariant guards + done + (if running then 1 else 0) == old(guards)
        invariant !running ==> guards == 0
        decreases guards, running
      {
        ghost var s := sock.Stream();
        NextOf(version, s, all, done);
        var packet;
        if version == V1 {
          packet := ReadFrameV1(sock);
        } else {
          packet := ReadFrameV2(order, sock);
        }
        if packet.None? {
          break;
        }
        frames := frames + [packet.value];
        done := done + 1;
        running := IsRunning();
      }
      isRunning := false;
    }
  }

  datatype Direction = In | Out | InOut

  lemma {:induction false} UnfoldFrames(version: Version, s: Bytes)
    ensures Frames(version, s) ==
      match FrameHead(version, s)
      case Whole(n) => if n <= |s| then [s[..n]] + Frames(version, s[n..]) else []
      case _ => []
  {
  }

  lemma {:induction false} NextFrame(all: seq<Bytes>, done: nat, f: Bytes)
    requires done < |all| && all[done] == f
    ensures all[..done] + [f] == all[..done + 1] && all[done..][1..] == all[done + 1..]
  {
  }

  /** What the next round does when the frames from number `done` on are left. */
  lemma {:induction false} NextOf(version: Version, s: Bytes, all: seq<Bytes>, done: nat)
    requires done <= |all| && Frames(version, s) == all[done..]
    ensures var h := FrameHead(version, s);
            if h.Whole? && h.n <= |s|
            then done < |all| && all[..done] + [s[..h.n]] == all[..done + 1] && Frames(version, s[h.n..]) == all[done + 1..]
            else done == |all| && all[..done] == all
  {
    hide Frames, FrameHead;
    UnfoldFrames(version, s);
    var h := FrameHead(version, s);
    if h.Whole? && h.n <= |s| {
      var rest := Frames(version, s[h.n..]);
      assert all[done] == all[done..][0] == s[..h.n];
      NextFrame(all, done, s[..h.n]);
      assert ([s[..h.n]] + rest)[1..] == rest;
    } else {
      assert all[done..] == [];
    }
  }
}
