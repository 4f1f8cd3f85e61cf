/** How a byte stream is split into frames, whatever the loop that reads it. */
module Framing {
  import opened Types
  import opened ByteOrder
  import opened PacketCodec
  import opened CommRaw

  const MAX_V1_PACKET: nat := 4 * 1024 * 1024
  const BODY_LEN_OFFSET: nat := 148

  /** What the first bytes of a stream announce: too few bytes, an invalid v1 length,
      or a frame of n bytes. */
  datatype Head = Short | Bad | Whole(n: nat)

  function HeadSize(version: Version): nat {
    if version.V1? then 4 else META_SIZE
  }

  function FrameHead(version: Version, s: Bytes): (h: Head)
    ensures h.Short? <==> |s| < HeadSize(version)
    ensures h.Whole? ==> h.n >= HeadSize(version)
  {
    if |s| < HeadSize(version) then Short else
    match version
    case V1 =>
      var headerLen := ReadLe32(s);
      if headerLen == 0 || headerLen > MAX_V1_PACKET then Bad else Whole(4 + headerLen)
    case V2 => Whole(META_SIZE + ReadLe32(s[BODY_LEN_OFFSET..]))
  }

  /** The complete frames at the front of a stream, up to an incomplete or invalid one. */
  function Frames(version: Version, s: Bytes): (frames: seq<Bytes>)
    decreases |s|
  {
    match FrameHead(version, s)
    case Whole(n) => if n <= |s| then [s[..n]] + Frames(version, s[n..]) else []
    case _ => []
  }

  function Concat(frames: seq<Bytes>): Bytes {
    Join(frames)
  }

  predicate IsFrame(version: Version, f: Bytes) {
    FrameHead(version, f) == Whole(|f|)
  }

  /** Bytes that hold no complete frame. */
  predicate Unfinished(version: Version, s: Bytes) {
    FrameHead(version, s).Whole? ==> |s| < FrameHead(version, s).n
  }

  lemma {:induction false} HeadOfExtension(version: Version, s: Bytes, t: Bytes)
    ensures !FrameHead(version, s).Short? ==> FrameHead(version, s + t) == FrameHead(version, s)
  {
    if !FrameHead(version, s).Short? {
      if version.V2? {
        assert (s + t)[BODY_LEN_OFFSET..] == s[BODY_LEN_OFFSET..] + t;
      }
    }
  }

  /** One complete frame is split off whole; what follows is read as if it stood alone. */
  lemma {:induction false} FramesStep(version: Version, f: Bytes, s: Bytes)
    requires IsFrame(version, f)
    ensures Frames(version, f + s) == [f] + Frames(version, s)
  {
    HeadOfExtension(version, f, s);
    assert (f + s)[..|f|] == f && (f + s)[|f|..] == s;
  }

  lemma {:induction false} FramesOfConcat(version: Version, fs: seq<Bytes>, tail: Bytes)
    requires forall f | f in fs :: IsFrame(version, f)
    ensures Frames(version, Concat(fs) + tail) == fs + Frames(version, tail)
  {
    hide Frames, IsFrame;
    if fs == [] {
      assert Concat(fs) + tail == tail;
    } else {
      FramesOfConcat(version, fs[1..], tail);
      FramesStep(version, fs[0], Concat(fs[1..]) + tail);
      assert Concat(fs) + tail == fs[0] + (Concat(fs[1..]) + tail);
    }
  }

  /** Every stream is its frames followed by an unfinished or invalid remainder, in one way only. */
  function Remainder(version: Version, s: Bytes): (r: Bytes)
    ensures Unfinished(version, r)
    decreases |s|
  {
    match FrameHead(version, s)
    case Whole(n) => if n <= |s| then Remainder(version, s[n..]) else s
    case _ => s
  }

  lemma {:induction false} Decomposition(version: Version, s: Bytes)
    ensures s == Concat(Frames(version, s)) + Remainder(version, s)
    ensures forall f | f in Frames(version, s) :: IsFrame(version, f)
  {
    SplitsIntoFrames(version, s);
    EachIsFrame(version, s);
  }

  lemma {:induction false} SplitsIntoFrames(version: Version, s: Bytes)
    ensures s == Concat(Frames(version, s)) + Remainder(version, s)
    decreases |s|
  {
    hide FrameHead, Unfinished, Concat;
    match FrameHead(version, s)
    case Whole(n) =>
      if n <= |s| {
        SplitsIntoFrames(version, s[n..]);
        PrependFrame(s, n, Frames(version, s[n..]), Remainder(version, s[n..]));
      } else {
        EmptyConcat(s);
      }
    case _ => EmptyConcat(s);
  }

  lemma {:induction false} EachIsFrame(version: Version, s: Bytes)
    ensures forall f | f in Frames(version, s) :: IsFrame(version, f)
    decreases |s|
  {
    hide FrameHead, IsFrame;
    match FrameHead(version, s)
    case Whole(n) =>
      if n <= |s| {
        FirstFrame(version, s);
        EachIsFrame(version, s[n..]);
      }
    case _ =>
  }

  lemma {:induction false} FirstFrame(version: Version, s: Bytes)
    requires FrameHead(version, s).Whole? && FrameHead(version, s).n <= |s|
    ensures IsFrame(version, s[..FrameHead(version, s).n])
  {
    var n := FrameHead(version, s).n;
    assert s == s[..n] + s[n..];
    HeadOfExtension(version, s[..n], s[n..]);
  }

  lemma {:induction false} EmptyConcat(s: Bytes)
    ensures s == Concat([]) + s
  {
  }

  lemma {:induction false} PrependFrame(s: Bytes, n: nat, fs: seq<Bytes>, tail: Bytes)
    requires n <= |s| && s[n..] == Concat(fs) + tail
    ensures s == Concat([s[..n]] + fs) + tail
  {
    assert ([s[..n]] + fs)[1..] == fs;
    assert s == s[..n] + s[n..];
  }

  lemma {:induction false} DecompositionUnique(version: Version, fs: seq<Bytes>, tail: Bytes)
    requires forall f | f in fs :: IsFrame(version, f)
    requires Unfinished(version, tail)
    ensures Frames(version, Concat(fs) + tail) == fs && Remainder(version, Concat(fs) + tail) == tail
  {
    FramesOfConcat(version, fs, tail);
    assert Frames(version, tail) == [];
    assert fs + [] == fs;
    Decomposition(version, Concat(fs) + tail);
    SameFront(Concat(fs), tail, Remainder(version, Concat(fs) + tail));
  }

  lemma {:induction false} SameFront(a: Bytes, s: Bytes, t: Bytes)
    requires a + s == a + t
    ensures s == t
  {
    assert s == (a + s)[|a|..] && t == (a + t)[|a|..];
  }

  /** A frame cut by the end of the stream is never delivered; everything before it is. */
  lemma {:induction false} CutFrameNotDelivered(version: Version, fs: seq<Bytes>, f: Bytes, n: nat)
    requires forall g | g in fs :: IsFrame(version, g)
    requires IsFrame(version, f) && n < |f|
    ensures Frames(version, Concat(fs) + f[..n]) == fs
  {
    assert Unfinished(version, f[..n]) by {
      HeadOfExtension(version, f[..n], f[n..]);
      assert f == f[..n] + f[n..];
    }
    DecompositionUnique(version, fs, f[..n]);
  }

  /** Frames of a prefix of a stream are a prefix of its frames. */
  lemma {:induction false} FramesMonotone(version: Version, s: Bytes, t: Bytes)
    ensures Frames(version, s) <= Frames(version, s + t)
  {
    Decomposition(version, s);
    FramesOfConcat(version, Frames(version, s), Remainder(version, s) + t);
    assert s + t == Concat(Frames(version, s)) + (Remainder(version, s) + t);
  }

  /** Where reading a stream ends: in the middle of a frame, or, in version 1 only, at a length
      field of 0 or above the limit. Nothing else about the bytes ends a connection. */
  lemma {:induction false} WhyReadingStops(version: Version, s: Bytes)
    ensures var r := Remainder(version, s);
      || |r| < HeadSize(version)
      || (FrameHead(version, r).Whole? && |r| < FrameHead(version, r).n)
      || (version.V1? && |r| >= 4 && (ReadLe32(r) == 0 || ReadLe32(r) > MAX_V1_PACKET))
    ensures version.V2? ==> !FrameHead(version, Remainder(version, s)).Bad?
  {
  }

  /** And such a length always ends it: whatever follows, no further frame is handed over. */
  lemma {:induction false} BadLengthEndsStream(fs: seq<Bytes>, s: Bytes)
    requires forall f | f in fs :: IsFrame(V1, f)
    requires |s| >= 4 && (ReadLe32(s) == 0 || ReadLe32(s) > 4 * 1024 * 1024)
    ensures Frames(V1, Concat(fs) + s) == fs
  {
    hide IsFrame, ReadLe32;
    FramesOfConcat(V1, fs, s);
    assert fs + [] == fs;
  }

  /** The wrapping comparison of decode_v1 never matters behind the loops: no packet they hand over has a
      length near 2^32, and such a packet is accepted exactly when its two lengths agree with each other. */
  lemma {:induction false} FramedAcceptance(s: Bytes, f: Bytes)
    requires f in Frames(V1, s) && |f| >= 8
    ensures |f| == 4 + HeaderLen(f) && HeaderLen(f) <= MAX_V1_PACKET
    ensures DecodeV1(f).Some? <==> NameLen(f) + 8 <= HeaderLen(f)
  {
    hide Frames, ReadLe32, DecodeV1;
    EachIsFrame(V1, s);
    AcceptedV1(f);
  }

  // ---------------------------------------------------------------- frames made by `send`

  /** The receiving loop can read this send as one frame. */
  predicate Readable(version: Version, key: Key, data: Bytes) {
    match version
    case V1 => 8 + |Normalise(key.robot)| + |data| <= 4 * 1024 * 1024
    case V2 => |data| < 0x1_0000_0000
  }

  lemma {:induction false} CutAt(s: Bytes, widths: seq<nat>, i: nat)
    requires |s| >= Total(widths) && i < |widths|
    ensures Total(widths[..i]) + widths[i] <= |s|
    ensures Cut(s, widths)[i] == s[Total(widths[..i])..Total(widths[..i]) + widths[i]]
  {
    if i == 0 {
      assert widths[..0] == [];
    } else {
      hide Cut;
      var w := widths[0];
      CutAt(s[w..], widths[1..], i - 1);
      assert widths[..i] == [w] + widths[1..][..i - 1];
      TotalCons(w, widths[1..][..i - 1]);
      var from := Total(widths[1..][..i - 1]);
      SliceOfRest(s, w, from, widths[i]);
      CutLater(s, widths, i);
    }
  }

  lemma {:induction false} SliceOfRest(s: Bytes, w: nat, from: nat, n: nat)
    requires w + from + n <= |s|
    ensures s[w..][from..from + n] == s[w + from..w + from + n]
  {
  }

  lemma {:induction false} TotalCons(w: nat, widths: seq<nat>)
    ensures Total([w] + widths) == w + Total(widths)
  {
    assert ([w] + widths)[1..] == widths;
  }

  lemma {:induction false} CutLater(s: Bytes, widths: seq<nat>, i: nat)
    requires |s| >= Total(widths) && 0 < i < |widths|
    ensures Cut(s, widths)[i] == Cut(s[widths[0]..], widths[1..])[i - 1]
  {
  }

  /** The body length the loops read from the struct is the little-endian word at offset 148. */
  lemma {:induction false} LoadedBodyLen(order: Order, s: Bytes)
    requires |s| >= META_SIZE
    ensures ToLe32(order, LoadMeta(order, s).bodyLen) == ReadLe32(s[BODY_LEN_OFFSET..])
  {
    hide Bswap32, HostLoad, LeValue, Cut, ReadLe32, Widths;
    BodyLenField(s);
    var word := s[BODY_LEN_OFFSET..][..4];
    assert word == s[BODY_LEN_OFFSET..BODY_LEN_OFFSET + 4];
    LoadFromLe32(order, word);
    ReadLe32IsLeValue(s[BODY_LEN_OFFSET..]);
  }

  lemma {:induction false} BodyLenField(s: Bytes)
    requires |s| >= META_SIZE
    ensures CutMeta(s)[7] == s[BODY_LEN_OFFSET..BODY_LEN_OFFSET + 4]
  {
    hide Cut, CutMeta, Widths, Total;
    LayoutTotal();
    LayoutPrefix();
    CutAt(s, LAYOUT, 7);
    CutMetaIsCut(s);
  }

  lemma {:induction false} LayoutPrefix()
    ensures Total(LAYOUT[..7]) == BODY_LEN_OFFSET
  {
    assert LAYOUT[..7] == [128, 4, 2, 2, 4, 4, 4];
    assert Total([128, 4, 2, 2, 4, 4, 4]) == 148;
  }

  lemma {:induction false} CutMetaIsCut(s: Bytes)
    requires |s| >= META_SIZE
    ensures |s| >= Total(LAYOUT) && CutMeta(s) == Cut(s, LAYOUT)
  {
    hide Cut, Widths;
    LayoutTotal();
  }

  lemma {:induction false} HeadOfFrame(version: Version, order: Order, key: Key, data: Bytes)
    requires Sendable(version, key, data)
    ensures FrameHead(version, Frame(version, order, key, data))
         == match version
            case V1 => if Readable(version, key, data) then Whole(|Frame(version, order, key, data)|) else Bad
            case V2 => Whole(META_SIZE + |data| % 0x1_0000_0000)
    ensures version.V2? ==> |Frame(version, order, key, data)| == META_SIZE + |data|
  {
    hide EncodeV2, DecodeV2, LoadMeta, ReadLe32, LeBytes, Make, RobotName, Stamped, ToLe32, Normalise;
    var p := PacketFor(key, data);
    var s := Frame(version, order, key, data);
    MakeParts(key.robot, AsU32(key.channel), data);
    match version
    case V1 =>
      var name := RobotName(p);
      assert s == LeBytes(8 + |name| + |data|, 4) + (LeBytes(|name|, 4) + name + LeBytes(p.meta.channelId, 4) + data);
      ReadWritten(8 + |name| + |data|, LeBytes(|name|, 4) + name + LeBytes(p.meta.channelId, 4) + data);
    case V2 =>
      EncodedBodyLen(order, p);
  }

  lemma {:induction false} EncodedBodyLen(order: Order, p: Packet)
    requires p.meta.Sized()
    ensures |EncodeV2(order, p, PDU_DATA_TYPE)| == META_SIZE + |p.body|
    ensures ReadLe32(EncodeV2(order, p, PDU_DATA_TYPE)[BODY_LEN_OFFSET..]) == |p.body| % 0x1_0000_0000
  {
    hide EncodeV2, LoadMeta, ReadLe32, WireFields, ToLe32, ToLe64, ToLe16, Join, SwapTime;
    var f := WireFields(p, PDU_DATA_TYPE, HostStore(order, p.meta.reserved, 2));
    EncodeV2Wire(order, p, PDU_DATA_TYPE);
    ReceivedMeta(order, order, p, PDU_DATA_TYPE, p.body);
    LoadedBodyLen(order, Join(f) + p.body);
  }

  /** The receiving loop reads a send back as exactly the frame that was written if and only if
      its lengths are within the receiver's limits. */
  lemma {:induction false} FrameReadableIff(version: Version, order: Order, key: Key, data: Bytes)
    requires Sendable(version, key, data)
    ensures IsFrame(version, Frame(version, order, key, data)) <==> Readable(version, key, data)
  {
    hide Frame, Normalise;
    HeadOfFrame(version, order, key, data);
  }

  /** Every length in a list of sends is computed without overflow. */
  predicate AllSendable(version: Version, sends: seq<Message>) {
    forall m | m in sends :: Sendable(version, m.key, m.data)
  }

  /** The frames of a list of sends, in order. */
  function FrameList(version: Version, order: Order, sends: seq<Message>): (fs: seq<Bytes>)
    requires AllSendable(version, sends)
    ensures |fs| == |sends|
    ensures forall i | 0 <= i < |sends| :: fs[i] == Frame(version, order, sends[i].key, sends[i].data)
  {
    seq(|sends|, i requires 0 <= i < |sends| => Frame(version, order, sends[i].key, sends[i].data))
  }

  lemma {:induction false} FirstUnreadable(version: Version, order: Order, m: Message, rest: Bytes)
    requires Sendable(version, m.key, m.data) && !Readable(version, m.key, m.data)
    ensures var f := Frame(version, order, m.key, m.data);
            var fs := Frames(version, f + rest);
            version.V1? ==> fs == []
    ensures var f := Frame(version, order, m.key, m.data);
            var fs := Frames(version, f + rest);
            fs != [] ==> fs[0] != f
  {
    hide Frame, Normalise, Readable;
    var f := Frame(version, order, m.key, m.data);
    HeadOfFrame(version, order, m.key, m.data);
    HeadOfExtension(version, f, rest);
    UnreadableV2(version, m);
  }

  lemma {:induction false} UnreadableV2(version: Version, m: Message)
    requires !Readable(version, m.key, m.data)
    ensures version.V2? ==> |m.data| >= 0x1_0000_0000
  {
  }

  /** Running the frame loop over the concatenated encodings of a list of sends gives back exactly
      that list of frames if and only if each send is within the receiver's limits. */
  lemma {:induction false} UniquelyReadable(version: Version, order: Order, sends: seq<Message>)
    requires AllSendable(version, sends)
    ensures Frames(version, Concat(FrameList(version, order, sends))) == FrameList(version, order, sends)
       <==> forall m | m in sends :: Readable(version, m.key, m.data)
  {
    hide Frame, Frames, Readable, IsFrame;
    var fs := FrameList(version, order, sends);
    if sends == [] {
      NothingIsNoFrame(version);
    } else {
      var m := sends[0];
      UniquelyReadable(version, order, sends[1..]);
      FrameListStep(version, order, sends);
      var tail := FrameList(version, order, sends[1..]);
      if Readable(version, m.key, m.data) {
        FrameReadableIff(version, order, m.key, m.data);
        FramesStep(version, fs[0], Concat(tail));
        assert Frames(version, Concat(fs))[1..] == Frames(version, Concat(tail));
      } else {
        FirstUnreadable(version, order, m, Concat(tail));
      }
    }
  }

  lemma {:induction false} FrameListStep(version: Version, order: Order, sends: seq<Message>)
    requires AllSendable(version, sends) && sends != []
    ensures var fs, tail := FrameList(version, order, sends), FrameList(version, order, sends[1..]);
            fs == [fs[0]] + tail && fs[1..] == tail && Concat(fs) == fs[0] + Concat(tail)
  {
    hide Frame, Sendable;
    var fs, tail := FrameList(version, order, sends), FrameList(version, order, sends[1..]);
    forall i | 0 <= i < |tail|
      ensures fs[1..][i] == tail[i]
    {
      assert sends[1..][i] == sends[i + 1];
    }
    assert fs[1..] == tail;
  }

  lemma {:induction false} NothingIsNoFrame(version: Version)
    ensures Frames(version, []) == []
  {
  }

  /** Even beyond the limits of version 1, what is read is a prefix of what was sent: the loop ends
      at the first frame it cannot read. */
  lemma {:induction false} ReadPrefixOfSent(version: Version, order: Order, sends: seq<Message>)
    requires AllSendable(version, sends)
    requires version.V2? ==> forall m | m in sends :: |m.data| < 0x1_0000_0000
    ensures Frames(version, Concat(FrameList(version, order, sends))) <= FrameList(version, order, sends)
  {
    hide Frame, Frames, IsFrame;
    var fs := FrameList(version, order, sends);
    if sends == [] {
      NothingIsNoFrame(version);
    } else {
      var m := sends[0];
      ReadPrefixOfSent(version, order, sends[1..]);
      FrameListStep(version, order, sends);
      var tail := FrameList(version, order, sends[1..]);
      if Readable(version, m.key, m.data) {
        FrameReadableIff(version, order, m.key, m.data);
        FramesStep(version, fs[0], Concat(tail));
      } else {
        FirstUnreadable(version, order, m, Concat(tail));
      }
    }
  }

  // ---------------------------------------------------------------- messages

  /** The callbacks a list of raw packets causes, in order. */
  function Messages(version: Version, order: Order, raws: seq<Bytes>): seq<Message> {
    if raws == [] then [] else
    (match Receive(version, order, raws[0]) case Some(m) => [m] case None => [])
    + Messages(version, order, raws[1..])
  }

  /** The messages of a list of sends that pass the data filter, under normalised keys. */
  function Surviving(version: Version, sends: seq<Message>): seq<Message> {
    if sends == [] then [] else
    (if LooksLikeData(version, sends[0].data) then [Message(NormalKey(sends[0].key), sends[0].data)] else [])
    + Surviving(version, sends[1..])
  }

  lemma {:induction false} MessagesConcat(version: Version, order: Order, a: seq<Bytes>, b: seq<Bytes>)
    ensures Messages(version, order, a + b) == Messages(version, order, a) + Messages(version, order, b)
  {
    hide Receive;
    if a == [] {
      assert a + b == b;
    } else {
      MessagesConcat(version, order, a[1..], b);
      MessagesCons(version, order, a[0], a[1..] + b);
      MessagesCons(version, order, a[0], a[1..]);
      assert a + b == [a[0]] + (a[1..] + b) && a == [a[0]] + a[1..];
    }
  }

  lemma {:induction false} MessagesCons(version: Version, order: Order, raw: Bytes, rest: seq<Bytes>)
    ensures Messages(version, order, [raw] + rest) == Messages(version, order, [raw]) + Messages(version, order, rest)
  {
    hide Receive;
    assert ([raw] + rest)[1..] == rest && [raw][1..] == [];
  }

  /** Decoding the frames of a list of sends gives back the surviving messages, in order. */
  lemma {:induction false} DecodedFrames(version: Version, sender: Order, receiver: Order, sends: seq<Message>)
    requires AllSendable(version, sends)
    requires version.V2? ==> forall m | m in sends :: |m.data| < 0x1_0000_0000
    ensures Messages(version, receiver, FrameList(version, sender, sends)) == Surviving(version, sends)
  {
    hide Frame, Receive, LooksLikeData, NormalKey;
    if sends == [] {
    } else {
      ReceiveFrame(version, sender, receiver, sends[0].key, sends[0].data);
      DecodedFrames(version, sender, receiver, sends[1..]);
      assert FrameList(version, sender, sends)[1..] == FrameList(version, sender, sends[1..]);
    }
  }

  /** A complete frame the decoder rejects is consumed whole: it contributes nothing, and every
      message before and after it is delivered as if it had not been there. */
  lemma {:induction false} RejectedFrameSkipped(version: Version, order: Order, before: seq<Bytes>, f: Bytes, after: Bytes)
    requires forall b | b in before :: IsFrame(version, b)
    requires IsFrame(version, f) && Receive(version, order, f).None?
    ensures Messages(version, order, Frames(version, Concat(before) + f + after))
         == Messages(version, order, Frames(version, Concat(before) + after))
  {
    hide Receive, IsFrame, Frames;
    FramesOfConcat(version, before, f + after);
    FramesOfConcat(version, before, after);
    FramesStep(version, f, after);
    assert Concat(before) + f + after == Concat(before) + (f + after);
    var rest := Frames(version, after);
    MessagesConcat(version, order, before, [f] + rest);
    MessagesConcat(version, order, before, rest);
    assert ([f] + rest)[1..] == rest;
  }
}
