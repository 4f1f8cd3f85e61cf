/** The data packet: its in-memory form, the two wire formats and their round trips. */
module PacketCodec {
  import opened Types
  import opened ByteOrder

  const META_MAGIC: u32 := 0x4841_4B4F
  const VERSION_2: u16 := 2
  const META_SIZE: nat := 304
  const FIXED_SIZE: nat := 176
  const NAME_SIZE: nat := 128

  const PDU_DATA_TYPE: u32 := 0x4255_5043
  const DECLARE_PDU_FOR_READ: u32 := 0x5245_5044
  const DECLARE_PDU_FOR_WRITE: u32 := 0x5750_5044
  const REQUEST_PDU_READ: u32 := 0x5750_5045

  /** The packed struct MetaPdu. */
  datatype MetaPdu = MetaPdu(
    robotName: Bytes,
    magicno: u32,
    version: u16,
    reserved: u16,
    flags: u32,
    requestType: u32,
    totalLen: u32,
    bodyLen: u32,
    hakoTime: i64,
    assetTime: i64,
    realTime: i64,
    channelId: u32,
    padding: Bytes)
  {
    /** The two arrays inside the struct have their declared sizes. */
    predicate Sized() {
      |robotName| == NAME_SIZE && |padding| == 124
    }
  }

  /** What a DataPacket object holds: its metadata and its body. */
  datatype Packet = Packet(meta: MetaPdu, body: Bytes)

  // ---------------------------------------------------------------- strings

  function Zeros(n: nat): (s: Bytes)
    ensures |s| == n
    ensures forall i | 0 <= i < n :: s[i] == 0
  {
    seq(n, i => 0)
  }

  /** The characters a C string has: those before the first NUL, or all of them. */
  function CString(s: Bytes): (r: Bytes)
    ensures |r| <= |s| && r == s[..|r|]
    ensures 0 !in r
    ensures |r| < |s| ==> s[|r|] == 0
  {
    if s == [] || s[0] == 0 then [] else [s[0]] + CString(s[1..])
  }

  /** A name as it survives set_robot_name: cut at the first NUL and at 127 bytes. */
  function Normalise(name: Bytes): (r: Bytes)
    ensures |r| < NAME_SIZE && 0 !in r
  {
    var c := CString(name);
    if |c| < NAME_SIZE then c else c[..NAME_SIZE - 1]
  }

  predicate IsNormal(name: Bytes) {
    |name| < NAME_SIZE && 0 !in name
  }

  lemma {:induction false} CStringStops(s: Bytes, t: Bytes)
    requires 0 !in s
    ensures CString(s) == s
    ensures t != [] && t[0] == 0 ==> CString(s + t) == s
  {
    if s == [] {
      assert s + t == t;
    } else {
      assert s == [s[0]] + s[1..];
      CStringStops(s[1..], t);
      assert (s + t)[1..] == s[1..] + t;
    }
  }

  /** The char[128] array after strncpy of 127 characters and the final NUL. */
  function NameField(name: Bytes): (field: Bytes)
    ensures |field| == NAME_SIZE
  {
    Normalise(name) + Zeros(NAME_SIZE - |Normalise(name)|)
  }

  lemma {:induction false} NameFieldHoldsName(name: Bytes)
    ensures CString(NameField(name)) == Normalise(name)
    ensures IsNormal(name) <==> Normalise(name) == name
  {
    CStringStops(Normalise(name), Zeros(NAME_SIZE - |Normalise(name)|));
    if IsNormal(name) {
      CStringStops(name, []);
    }
  }

  /** DataPacket(robot_name, channel_id, body). */
  function Make(name: Bytes, channel: u32, body: Bytes): (p: Packet)
    ensures p.meta.Sized()
  {
    Packet(MetaPdu(NameField(name), 0, 0, 0, 0, 0, 0, 0, 0, 0, 0, channel, Zeros(124)), body)
  }

  function RobotName(p: Packet): Bytes {
    CString(p.meta.robotName)
  }

  predicate IsPduDataType(version: Version, p: Packet) {
    match version
    case V1 =>
      |p.body| < 4 ||
      ReadLe32(p.body) !in {DECLARE_PDU_FOR_READ, DECLARE_PDU_FOR_WRITE, REQUEST_PDU_READ}
    case V2 => p.meta.requestType == PDU_DATA_TYPE
  }

  // ---------------------------------------------------------------- struct layout

  /** The concatenation of a list of fields. */
  function Join(fields: seq<Bytes>): Bytes {
    if fields == [] then [] else fields[0] + Join(fields[1..])
  }

  function Total(widths: seq<nat>): nat {
    if widths == [] then 0 else widths[0] + Total(widths[1..])
  }

  /** A byte string cut into consecutive fields of the given widths. */
  function Cut(s: Bytes, widths: seq<nat>): (fields: seq<Bytes>)
    requires |s| >= Total(widths)
    ensures |fields| == |widths|
    ensures forall i | 0 <= i < |widths| :: |fields[i]| == widths[i]
  {
    if widths == [] then [] else [s[..widths[0]]] + Cut(s[widths[0]..], widths[1..])
  }

  function Widths(fields: seq<Bytes>): (widths: seq<nat>)
    ensures |widths| == |fields|
    ensures forall i | 0 <= i < |fields| :: widths[i] == |fields[i]|
  {
    seq(|fields|, i requires 0 <= i < |fields| => |fields[i]|)
  }

  lemma {:induction false} CutJoin(fields: seq<Bytes>, rest: Bytes)
    ensures |Join(fields)| == Total(Widths(fields))
    ensures Cut(Join(fields) + rest, Widths(fields)) == fields
  {
    if fields == [] {
    } else {
      CutJoin(fields[1..], rest);
      assert Widths(fields)[1..] == Widths(fields[1..]);
      var s := Join(fields) + rest;
      assert s == fields[0] + (Join(fields[1..]) + rest);
      assert s[..|fields[0]|] == fields[0];
      assert s[|fields[0]|..] == Join(fields[1..]) + rest;
    }
  }

  /** The widths of the thirteen fields of MetaPdu, in declaration order. */
  const LAYOUT: seq<nat> := [128, 4, 2, 2, 4, 4, 4, 4, 8, 8, 8, 4, 124]

  lemma {:induction false} LayoutTotal()
    ensures Total(LAYOUT) == META_SIZE
  {
    var l := LAYOUT;
    assert l[1..] == [4, 2, 2, 4, 4, 4, 4, 8, 8, 8, 4, 124];
    assert Total([4, 2, 2, 4, 4, 4, 4, 8, 8, 8, 4, 124]) == 176;
  }

  /** The bytes of each field on a machine of the given byte order. */
  function Fields(order: Order, m: MetaPdu): (f: seq<Bytes>)
    requires m.Sized()
    ensures |f| == 13 && Widths(f) == LAYOUT
  {
    [ m.robotName,
      HostStore(order, m.magicno, 4),
      HostStore(order, m.version, 2),
      HostStore(order, m.reserved, 2),
      HostStore(order, m.flags, 4),
      HostStore(order, m.requestType, 4),
      HostStore(order, m.totalLen, 4),
      HostStore(order, m.bodyLen, 4),
      HostStore(order, AsU64(m.hakoTime), 8),
      HostStore(order, AsU64(m.assetTime), 8),
      HostStore(order, AsU64(m.realTime), 8),
      HostStore(order, m.channelId, 4),
      m.padding ]
  }

  function LoadU16(order: Order, s: Bytes): u16
    requires |s| == 2
  {
    assert Pow256(2) == 0x1_0000;
    HostLoad(order, s)
  }

  function LoadU32(order: Order, s: Bytes): u32
    requires |s| == 4
  {
    assert Pow256(4) == 0x1_0000_0000;
    HostLoad(order, s)
  }

  function LoadI64(order: Order, s: Bytes): i64
    requires |s| == 8
  {
    assert Pow256(8) == 0x1_0000_0000_0000_0000;
    AsI64(HostLoad(order, s))
  }

  function CutMeta(s: Bytes): (f: seq<Bytes>)
    requires |s| >= META_SIZE
    ensures |f| == 13 && Widths(f) == LAYOUT
    ensures |f[0]| == 128 && |f[12]| == 124 && |f[2]| == |f[3]| == 2
    ensures |f[1]| == |f[4]| == |f[5]| == |f[6]| == |f[7]| == |f[11]| == 4
    ensures |f[8]| == |f[9]| == |f[10]| == 8
  {
    LayoutTotal();
    Cut(s, LAYOUT)
  }

  /** A MetaPdu variable after memcpy from the front of a buffer. */
  function LoadMeta(order: Order, s: Bytes): (m: MetaPdu)
    requires |s| >= META_SIZE
    ensures m.Sized()
  {
    var f := CutMeta(s);
    MetaPdu(f[0], LoadU32(order, f[1]), LoadU16(order, f[2]), LoadU16(order, f[3]),
            LoadU32(order, f[4]), LoadU32(order, f[5]), LoadU32(order, f[6]), LoadU32(order, f[7]),
            LoadI64(order, f[8]), LoadI64(order, f[9]), LoadI64(order, f[10]),
            LoadU32(order, f[11]), f[12])
  }

  // ---------------------------------------------------------------- version 2

  function SwapTime(order: Order, t: i64): i64 {
    AsI64(ToLe64(order, AsU64(t)))
  }

  /** The struct encode_v2 copies to the wire: integer fields converted with to_le. */
  function MetaToSend(order: Order, p: Packet, requestType: u32): (m: MetaPdu)
    requires p.meta.Sized()
    ensures m.Sized()
  {
    var bodyLen: u32 := |p.body| % 0x1_0000_0000;
    p.meta.(
      magicno := ToLe32(order, META_MAGIC),
      version := ToLe16(order, VERSION_2),
      flags := ToLe32(order, 0),
      requestType := ToLe32(order, requestType),
      bodyLen := ToLe32(order, bodyLen),
      totalLen := ToLe32(order, (FIXED_SIZE - 4 + bodyLen) % 0x1_0000_0000),
      hakoTime := SwapTime(order, p.meta.hakoTime),
      assetTime := SwapTime(order, p.meta.assetTime),
      realTime := SwapTime(order, p.meta.realTime),
      channelId := ToLe32(order, p.meta.channelId))
  }

  function EncodeV2(order: Order, p: Packet, requestType: u32): (s: Bytes)
    requires p.meta.Sized()
  {
    Join(Fields(order, MetaToSend(order, p, requestType))) + p.body
  }

  /** The struct decode_v2 keeps: integer fields converted back with from_le. */
  function MetaReceived(order: Order, m: MetaPdu): (r: MetaPdu) {
    m.(magicno := ToLe32(order, m.magicno),
       version := ToLe16(order, m.version),
       flags := ToLe32(order, m.flags),
       requestType := ToLe32(order, m.requestType),
       totalLen := ToLe32(order, m.totalLen),
       bodyLen := ToLe32(order, m.bodyLen),
       hakoTime := SwapTime(order, m.hakoTime),
       assetTime := SwapTime(order, m.assetTime),
       realTime := SwapTime(order, m.realTime),
       channelId := ToLe32(order, m.channelId))
  }

  function DecodeV2(order: Order, s: Bytes): Option<Packet> {
    if |s| < META_SIZE then None else
    var m := MetaReceived(order, LoadMeta(order, s));
    if m.magicno != META_MAGIC || m.version != VERSION_2 then None
    else if |s| - META_SIZE < m.bodyLen then None
    else Some(Packet(m, s[META_SIZE..META_SIZE + m.bodyLen]))
  }

  /** The fields every machine puts on the wire; only `reserved` is copied without conversion. */
  function WireFields(p: Packet, requestType: u32, reserved: Bytes): (f: seq<Bytes>)
    requires p.meta.Sized() && |reserved| == 2
    ensures |f| == 13 && Widths(f) == LAYOUT
  {
    var bodyLen: u32 := |p.body| % 0x1_0000_0000;
    [ p.meta.robotName,
      LeBytes(META_MAGIC, 4),
      LeBytes(VERSION_2, 2),
      reserved,
      LeBytes(0, 4),
      LeBytes(requestType, 4),
      LeBytes((FIXED_SIZE - 4 + bodyLen) % 0x1_0000_0000, 4),
      LeBytes(bodyLen, 4),
      LeBytes(AsU64(p.meta.hakoTime), 8),
      LeBytes(AsU64(p.meta.assetTime), 8),
      LeBytes(AsU64(p.meta.realTime), 8),
      LeBytes(p.meta.channelId, 4),
      p.meta.padding ]
  }

  lemma {:induction false} TimeOnWire(order: Order, t: i64)
    ensures HostStore(order, AsU64(SwapTime(order, t)), 8) == LeBytes(AsU64(t), 8)
  {
    StoreToLe64(order, AsU64(t));
  }

  lemma {:induction false} EncodeV2Wire(order: Order, p: Packet, requestType: u32)
    requires p.meta.Sized()
    ensures EncodeV2(order, p, requestType)
         == Join(WireFields(p, requestType, HostStore(order, p.meta.reserved, 2))) + p.body
  {
    hide HostStore, ToLe16, ToLe32, ToLe64, LeBytes, Join, Widths, SwapTime, AsU64;
    var bodyLen: u32 := |p.body| % 0x1_0000_0000;
    StoreToLe32(order, META_MAGIC);
    StoreToLe16(order, VERSION_2);
    StoreToLe32(order, 0);
    StoreToLe32(order, requestType);
    StoreToLe32(order, (FIXED_SIZE - 4 + bodyLen) % 0x1_0000_0000);
    StoreToLe32(order, bodyLen);
    TimeOnWire(order, p.meta.hakoTime);
    TimeOnWire(order, p.meta.assetTime);
    TimeOnWire(order, p.meta.realTime);
    StoreToLe32(order, p.meta.channelId);
    assert Fields(order, MetaToSend(order, p, requestType))
        == WireFields(p, requestType, HostStore(order, p.meta.reserved, 2));
  }

  lemma {:induction false} StoredReserved(v: u16)
    ensures HostStore(Little, v, 2) == [v % 256, v / 256]
    ensures HostStore(Big, v, 2) == [v / 256, v % 256]
  {
    assert LeBytes(v, 2) == [v % 256, v / 256];
    assert Reverse(LeBytes(v, 2)[1..]) == [v / 256];
  }

  lemma {:induction false} JoinInjective(f: seq<Bytes>, g: seq<Bytes>, rest: Bytes)
    requires Widths(f) == Widths(g) && Join(f) + rest == Join(g) + rest
    ensures f == g
  {
    CutJoin(f, rest);
    CutJoin(g, rest);
  }

  /** Little- and big-endian machines send the same bytes exactly when the two bytes of `reserved` agree. */
  lemma {:induction false} WireImageIndependentOfHost(p: Packet, requestType: u32)
    requires p.meta.Sized()
    ensures EncodeV2(Little, p, requestType) == EncodeV2(Big, p, requestType)
       <==> p.meta.reserved % 256 == p.meta.reserved / 256
  {
    hide EncodeV2, LeBytes, Join, AsU64, Widths;
    EncodeV2Wire(Little, p, requestType);
    EncodeV2Wire(Big, p, requestType);
    var low, high := HostStore(Little, p.meta.reserved, 2), HostStore(Big, p.meta.reserved, 2);
    StoredReserved(p.meta.reserved);
    var f, g := WireFields(p, requestType, low), WireFields(p, requestType, high);
    assert f[3] == low && g[3] == high;
    if EncodeV2(Little, p, requestType) == EncodeV2(Big, p, requestType) {
      JoinInjective(f, g, p.body);
    }
  }

  /** So a packet built from a name, a channel and a body has one image on the wire. */
  lemma {:induction false} BuiltPacketImage(name: Bytes, channel: u32, body: Bytes, requestType: u32)
    ensures EncodeV2(Little, Make(name, channel, body), requestType) == EncodeV2(Big, Make(name, channel, body), requestType)
  {
    hide EncodeV2, NameField;
    WireImageIndependentOfHost(Make(name, channel, body), requestType);
  }

  lemma {:induction false} LoadWire16(order: Order, v: u16)
    ensures ToLe16(order, LoadU16(order, LeBytes(v, 2))) == v
  {
    LoadFromLe16(order, LeBytes(v, 2));
    assert Pow256(2) == 0x1_0000;
    LeRoundTrip(v, 2);
  }

  lemma {:induction false} LoadWire32(order: Order, v: u32)
    ensures ToLe32(order, LoadU32(order, LeBytes(v, 4))) == v
  {
    LoadFromLe32(order, LeBytes(v, 4));
    assert Pow256(4) == 0x1_0000_0000;
    LeRoundTrip(v, 4);
  }

  lemma {:induction false} LoadWireTime(order: Order, t: i64)
    ensures SwapTime(order, LoadI64(order, LeBytes(AsU64(t), 8))) == t
  {
    hide HostLoad, ToLe64, LeBytes, LeValue, Bswap64;
    LoadFromLe64(order, LeBytes(AsU64(t), 8));
    assert Pow256(8) == 0x1_0000_0000_0000_0000;
    LeRoundTrip(AsU64(t), 8);
  }

  /** The metadata a receiver ends up with for a packet p sent by encode_v2. */
  function Stamped(sender: Order, receiver: Order, p: Packet, requestType: u32): MetaPdu
    requires p.meta.Sized()
  {
    var bodyLen: u32 := |p.body| % 0x1_0000_0000;
    p.meta.(
      magicno := META_MAGIC,
      version := VERSION_2,
      reserved := LoadU16(receiver, HostStore(sender, p.meta.reserved, 2)),
      flags := 0,
      requestType := requestType,
      totalLen := (FIXED_SIZE - 4 + bodyLen) % 0x1_0000_0000,
      bodyLen := bodyLen)
  }

  lemma {:induction false} ReceivedMeta(sender: Order, receiver: Order, p: Packet, requestType: u32, rest: Bytes)
    requires p.meta.Sized()
    ensures |Join(WireFields(p, requestType, HostStore(sender, p.meta.reserved, 2)))| == META_SIZE
    ensures MetaReceived(receiver, LoadMeta(receiver,
              Join(WireFields(p, requestType, HostStore(sender, p.meta.reserved, 2))) + rest))
         == Stamped(sender, receiver, p, requestType)
  {
    hide HostStore, HostLoad, ToLe16, ToLe32, ToLe64, LeBytes, Join, SwapTime, AsU64, Cut, Total, LoadU16, LoadU32, LoadI64;
    var bodyLen: u32 := |p.body| % 0x1_0000_0000;
    var f := WireFields(p, requestType, HostStore(sender, p.meta.reserved, 2));
    CutJoin(f, rest);
    LayoutTotal();
    LoadWire32(receiver, META_MAGIC);
    LoadWire16(receiver, VERSION_2);
    LoadWire32(receiver, 0);
    LoadWire32(receiver, requestType);
    LoadWire32(receiver, (FIXED_SIZE - 4 + bodyLen) % 0x1_0000_0000);
    LoadWire32(receiver, bodyLen);
    LoadWireTime(receiver, p.meta.hakoTime);
    LoadWireTime(receiver, p.meta.assetTime);
    LoadWireTime(receiver, p.meta.realTime);
    LoadWire32(receiver, p.meta.channelId);
    assert Cut(Join(f) + rest, LAYOUT) == f;
  }

  /** As much of a body as its 32-bit length field announces. */
  function Announced(body: Bytes): (r: Bytes)
    ensures |r| == |body| % 0x1_0000_0000
    ensures |body| < 0x1_0000_0000 ==> r == body
  {
    body[..|body| % 0x1_0000_0000]
  }

  /** decode_v2 after encode_v2, on any two machines and with any bytes appended to the packet. */
  lemma {:induction false} DecodeEncodeV2(sender: Order, receiver: Order, p: Packet, requestType: u32, extra: Bytes)
    requires p.meta.Sized()
    ensures DecodeV2(receiver, EncodeV2(sender, p, requestType) + extra)
         == Some(Packet(Stamped(sender, receiver, p, requestType), Announced(p.body)))
  {
    hide EncodeV2, LoadMeta, MetaReceived, WireFields, Join, HostStore;
    EncodeV2Wire(sender, p, requestType);
    var head := Join(WireFields(p, requestType, HostStore(sender, p.meta.reserved, 2)));
    ReceivedMeta(sender, receiver, p, requestType, p.body + extra);
    var s := EncodeV2(sender, p, requestType) + extra;
    assert s == head + (p.body + extra);
    var n := |p.body| % 0x1_0000_0000;
    assert s[META_SIZE..META_SIZE + n] == Announced(p.body);
  }

  /** The round trip gives the body back exactly when its length fits the 32-bit length field. */
  lemma {:induction false} BodySurvivesV2(sender: Order, receiver: Order, p: Packet, requestType: u32)
    requires p.meta.Sized()
    ensures var q := DecodeV2(receiver, EncodeV2(sender, p, requestType));
            q.Some? && (q.value.body == p.body <==> |p.body| < 0x1_0000_0000)
  {
    hide EncodeV2, DecodeV2, Stamped;
    DecodeEncodeV2(sender, receiver, p, requestType, []);
    assert EncodeV2(sender, p, requestType) + [] == EncodeV2(sender, p, requestType);
  }

  // ---------------------------------------------------------------- version 1

  /** Unsigned 32-bit arithmetic wraps around. */
  function Wrap32(x: nat): u32 {
    x % 0x1_0000_0000
  }

  /** No 32-bit length computed by encode_v1 overflows; beyond this the source writes out of bounds. */
  predicate FitsV1(p: Packet) {
    12 + |RobotName(p)| + |p.body| < 0x1_0000_0000
  }

  function EncodeV1(p: Packet): (s: Bytes)
    requires FitsV1(p)
    ensures |s| == 12 + |RobotName(p)| + |p.body|
  {
    var name := RobotName(p);
    LeBytes(8 + |name| + |p.body|, 4) + LeBytes(|name|, 4) + name + LeBytes(p.meta.channelId, 4) + p.body
  }

  /** decode_v1 on any byte string: lengths are combined in wrapping 32-bit arithmetic as in the source. */
  function DecodeV1(s: Bytes): Option<Packet> {
    if |s| < 4 then None else
    var headerLen := ReadLe32(s);
    if |s| < Wrap32(4 + headerLen) || |s| < 8 then None else
    var nameLen := ReadLe32(s[4..]);
    if |s| < 8 + nameLen + 4 || headerLen < Wrap32(4 + nameLen + 4) then None else
    Some(Make(s[8..8 + nameLen], ReadLe32(s[8 + nameLen..]), s[12 + nameLen..]))
  }

  lemma {:induction false} ReadWritten(v: u32, rest: Bytes)
    ensures ReadLe32(LeBytes(v, 4) + rest) == v
  {
    hide LeBytes, LeValue, ReadLe32;
    var s := LeBytes(v, 4) + rest;
    ReadLe32IsLeValue(s);
    assert s[..4] == LeBytes(v, 4);
    assert Pow256(4) == 0x1_0000_0000;
    LeRoundTrip(v, 4);
  }

  lemma {:induction false} WriteRead(s: Bytes)
    requires |s| >= 4
    ensures LeBytes(ReadLe32(s), 4) == s[..4]
  {
    hide LeBytes, LeValue, ReadLe32;
    ReadLe32IsLeValue(s);
    LeInverse(s[..4]);
  }

  /** decode_v1 after encode_v1 keeps name, channel and body; a packet built from them comes back whole. */
  lemma {:induction false} DecodeEncodeV1(p: Packet)
    requires FitsV1(p)
    ensures DecodeV1(EncodeV1(p)) == Some(Make(RobotName(p), p.meta.channelId, p.body))
    ensures DecodeV1(EncodeV1(p)) == Some(p) <==> exists name, ch, body :: p == Make(name, ch, body)
  {
    hide LeBytes, ReadLe32, RobotName, Make;
    var name, s := RobotName(p), EncodeV1(p);
    var tail := LeBytes(p.meta.channelId, 4) + p.body;
    assert s == LeBytes(8 + |name| + |p.body|, 4) + (LeBytes(|name|, 4) + name + tail);
    ReadWritten(8 + |name| + |p.body|, LeBytes(|name|, 4) + name + tail);
    assert s[4..] == LeBytes(|name|, 4) + (name + tail);
    ReadWritten(|name|, name + tail);
    assert s[8..8 + |name|] == name;
    assert s[8 + |name|..] == tail;
    ReadWritten(p.meta.channelId, p.body);
    assert s[12 + |name|..] == p.body;
    forall name, ch, body | p == Make(name, ch, body)
      ensures p == Make(RobotName(p), p.meta.channelId, p.body)
    {
      RemakeIsIdentity(name, ch, body);
    }
  }

  lemma {:induction false} RemakeIsIdentity(name: Bytes, ch: u32, body: Bytes)
    ensures var p := Make(name, ch, body);
            RobotName(p) == Normalise(name) && p == Make(RobotName(p), p.meta.channelId, p.body)
  {
    NameFieldHoldsName(name);
    NameFieldHoldsName(Normalise(name));
  }

  /** The two length fields of a v1 byte string. */
  function HeaderLen(s: Bytes): u32
    requires |s| >= 8
  {
    ReadLe32(s)
  }

  function NameLen(s: Bytes): u32
    requires |s| >= 8
  {
    ReadLe32(s[4..])
  }

  /** Which byte strings decode_v1 accepts, with the wrap-around resolved. */
  lemma {:induction false} AcceptedV1(s: Bytes)
    requires |s| < 0x1_0000_0000
    ensures DecodeV1(s).Some? <==>
      && |s| >= 12
      && 12 + NameLen(s) <= |s|
      && (HeaderLen(s) >= 0xFFFF_FFFC || (HeaderLen(s) + 4 <= |s| && NameLen(s) + 8 <= HeaderLen(s)))
  {
    hide ReadLe32, Make;
  }

  /** So a header length that cannot be the length of any packet is accepted when 4 + it wraps. */
  lemma {:induction false} WrappedLengthAccepted()
    ensures DecodeV1([255, 255, 255, 255, 0, 0, 0, 0, 0, 0, 0, 0]) == Some(Make([], 0, []))
  {
    var s: Bytes := [255, 255, 255, 255, 0, 0, 0, 0, 0, 0, 0, 0];
    assert s[4..] == s[8..] + [0, 0, 0, 0];
    assert s[12..] == [] && s[8..8] == [];
  }

  /** Decoding rewrites only the length field of a byte string with a normal name. */
  lemma {:induction false} ReencodeNormal(s: Bytes)
    requires |s| < 0x1_0000_0000 && DecodeV1(s).Some? && IsNormal(s[8..8 + NameLen(s)])
    ensures FitsV1(DecodeV1(s).value)
    ensures EncodeV1(DecodeV1(s).value) == LeBytes(|s| - 4, 4) + s[4..]
  {
    hide LeBytes, ReadLe32, RobotName, Normalise, Make;
    var n := NameLen(s);
    var name, ch, body := s[8..8 + n], ReadLe32(s[8 + n..]), s[12 + n..];
    assert DecodeV1(s).value == Make(name, ch, body);
    MakeParts(name, ch, body);
    NameFieldHoldsName(name);
    WriteRead(s[4..]);
    WriteRead(s[8 + n..]);
    assert s[4..] == s[4..][..4] + name + s[8 + n..][..4] + body;
  }

  lemma {:induction false} MakeParts(name: Bytes, ch: u32, body: Bytes)
    ensures var p := Make(name, ch, body);
            RobotName(p) == Normalise(name) && p.meta.channelId == ch && p.body == body
  {
    RemakeIsIdentity(name, ch, body);
  }

  /** encode_v1 after decode_v1 reproduces an accepted byte string exactly when the length field
      counts everything after it and the name survives normalisation. */
  lemma {:induction false} EncodeDecodeV1(s: Bytes)
    requires |s| < 0x1_0000_0000 && DecodeV1(s).Some?
    ensures FitsV1(DecodeV1(s).value)
    ensures EncodeV1(DecodeV1(s).value) == s
       <==> HeaderLen(s) == |s| - 4 && IsNormal(s[8..8 + NameLen(s)])
  {
    hide LeBytes, ReadLe32, RobotName, Normalise, Make;
    var n := NameLen(s);
    var name, ch, body := s[8..8 + n], ReadLe32(s[8 + n..]), s[12 + n..];
    assert DecodeV1(s).value == Make(name, ch, body);
    MakeParts(name, ch, body);
    NormaliseShortens(name);
    if IsNormal(name) {
      ReencodeNormal(s);
      WriteRead(s);
      assert s == s[..4] + s[4..];
      var e := LeBytes(|s| - 4, 4) + s[4..];
      assert e[..4] == LeBytes(|s| - 4, 4);
      ReadWritten(|s| - 4, []);
      ReadWritten(HeaderLen(s), []);
      assert LeBytes(|s| - 4, 4) + [] == LeBytes(|s| - 4, 4);
      assert LeBytes(HeaderLen(s), 4) + [] == s[..4];
    }
  }

  lemma {:induction false} NormaliseShortens(name: Bytes)
    ensures |Normalise(name)| <= |name|
    ensures Normalise(name) == name[..|Normalise(name)|]
    ensures |Normalise(name)| == |name| ==> IsNormal(name)
  {
  }
}
